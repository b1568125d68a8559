/** The per-byte meaning of `http_parser_execute` for requests.

    `Micro` is one pass through the switch of the C code, `Settle` follows its jumps to
    `reexecute_byte`, `Step` adds the header byte count, and `Run` folds `Step` over a buffer. */
module Parser {
  import opened Chars
  import opened Options

  datatype State =
    | Dead | StartReq | ReqMethod | ReqSpacesBeforeUrl
    | ReqSchema | ReqSchemaSlash | ReqSchemaSlashSlash | ReqServerStart | ReqServer | ReqServerWithAt
    | ReqPath | ReqQueryStringStart | ReqQueryString | ReqFragmentStart | ReqFragment
    | ReqHttpStart | ReqHttpH | ReqHttpHT | ReqHttpHTT | ReqHttpHTTP
    | ReqFirstHttpMajor | ReqHttpMajor | ReqFirstHttpMinor | ReqHttpMinor | ReqLineAlmostDone
    | HeaderFieldStart | HeaderField | HeaderValueStart | HeaderValue | HeaderValueLws | HeaderAlmostDone
    | ChunkSizeStart | ChunkSize | ChunkParameters | ChunkSizeAlmostDone
    | HeadersAlmostDone | HeadersDone
    | ChunkData | ChunkDataAlmostDone | ChunkDataDone
    | BodyIdentity | MessageDone

  datatype HeaderState =
    | General | MatchC | MatchCO | MatchCON
    | MatchingConnection | MatchingProxyConnection | MatchingContentLength
    | MatchingTransferEncoding | MatchingUpgrade
    | Connection | ContentLength | TransferEncoding | Upgrade
    | MatchingChunked | MatchingKeepAlive | MatchingClose
    | Chunked | KeepAlive | Close

  datatype Method =
    | DELETE | GET | HEAD | POST | PUT | CONNECT | OPTIONS | TRACE | COPY | LOCK | MKCOL | MOVE
    | PROPFIND | PROPPATCH | SEARCH | UNLOCK | REPORT | MKACTIVITY | CHECKOUT | MERGE | MSEARCH
    | NOTIFY | SUBSCRIBE | UNSUBSCRIBE | PATCH | PURGE

  datatype Errno =
    | Ok | InvalidEofState | HeaderOverflow | ClosedConnection | InvalidVersion | InvalidMethod | InvalidUrl
    | LfExpected | InvalidHeaderToken | InvalidContentLength | InvalidChunkSize | InvalidConstant | Strict

  /** The bits of `parser->flags`; F_SKIPBODY is never set by a callback that returns 0. */
  datatype Flags = Flags(chunked: bool, keepAlive: bool, close: bool, trailing: bool, upgrade: bool)

  /** The fields of `struct http_parser`. */
  datatype Parser = Parser(
    state: State, headerState: HeaderState, index: nat, nread: nat, contentLength: nat,
    httpMajor: nat, httpMinor: nat, verb: Method, flags: Flags, upgrade: bool, errno: Errno)

  const NO_FLAGS := Flags(false, false, false, false, false)
  const HTTP_MAX_HEADER_SIZE: nat := 80 * 1024
  const TWO_TO_THE_64: nat := 0x1_0000_0000_0000_0000
  const ULLONG_MAX: nat := 0xFFFF_FFFF_FFFF_FFFF

  /** `http_parser_init` for HTTP_REQUEST. */
  const INITIAL := Parser(StartReq, General, 0, 0, 0, 0, 0, DELETE, NO_FLAGS, false, Ok)

  /** A field of a message that a data callback delivers. */
  datatype Field = Url | Name | Value | Body

  /** One element of the merged event trace: a notification, or one byte of a data callback. */
  datatype Atom = Begin | HeadersComplete | Complete | Byte(field: Field, c: char)

  /** How a pass through the switch ends: fetch the next byte, jump to `reexecute_byte`,
      jump to `error`, or return early (protocol upgrade). */
  datatype Next = Advance | Reexecute | Error | Leave

  /** The effect of a byte, or of one pass through the switch for it. */
  datatype Effect = Effect(p: Parser, next: Next, out: seq<Atom>)

  /** PARSING_HEADER: the states whose bytes count against the header limit. */
  predicate ParsingHeader(s: State) {
    !(s.ChunkData? || s.ChunkDataAlmostDone? || s.ChunkDataDone? || s.BodyIdentity? || s.MessageDone?)
  }

  /** `http_should_keep_alive` for a request. */
  predicate ShouldKeepAlive(p: Parser) {
    if p.httpMajor > 0 && p.httpMinor > 0 then !p.flags.close else p.flags.keepAlive
  }

  /** NEW_MESSAGE in strict mode. */
  function NewMessage(p: Parser): (s: State)
    ensures s.StartReq? || s.Dead?
  {
    if ShouldKeepAlive(p) then StartReq else Dead
  }

  // ---------------------------------------------------------------- the method

  /** The entry of `method_strings`. The M-SEARCH entry is stringised with blanks. */
  function Spelling(m: Method): (word: string)
    ensures |word| > 2
  {
    match m
    case DELETE => "DELETE" case GET => "GET" case HEAD => "HEAD" case POST => "POST" case PUT => "PUT"
    case CONNECT => "CONNECT" case OPTIONS => "OPTIONS" case TRACE => "TRACE" case COPY => "COPY"
    case LOCK => "LOCK" case MKCOL => "MKCOL" case MOVE => "MOVE" case PROPFIND => "PROPFIND"
    case PROPPATCH => "PROPPATCH" case SEARCH => "SEARCH" case UNLOCK => "UNLOCK" case REPORT => "REPORT"
    case MKACTIVITY => "MKACTIVITY" case CHECKOUT => "CHECKOUT" case MERGE => "MERGE"
    case MSEARCH => "M - SEARCH" case NOTIFY => "NOTIFY" case SUBSCRIBE => "SUBSCRIBE"
    case UNSUBSCRIBE => "UNSUBSCRIBE" case PATCH => "PATCH" case PURGE => "PURGE"
  }

  /** The candidate chosen by the first byte of a request. */
  function FirstCandidate(ch: char): Option<Method> {
    match ch
    case 'C' => Some(CONNECT) case 'D' => Some(DELETE) case 'G' => Some(GET) case 'H' => Some(HEAD)
    case 'L' => Some(LOCK) case 'M' => Some(MKCOL) case 'N' => Some(NOTIFY) case 'O' => Some(OPTIONS)
    case 'P' => Some(POST) case 'R' => Some(REPORT) case 'S' => Some(SUBSCRIBE) case 'T' => Some(TRACE)
    case 'U' => Some(UNLOCK)
    case _ => None
  }

  /** The candidate that replaces m when the byte at `index` does not continue m. */
  function NextCandidate(m: Method, index: nat, ch: char): Option<Method> {
    if m.CONNECT? then
      if index == 1 && ch == 'H' then Some(CHECKOUT)
      else if index == 2 && ch == 'P' then Some(COPY) else None
    else if m.MKCOL? then
      if index == 1 && ch == 'O' then Some(MOVE)
      else if index == 1 && ch == 'E' then Some(MERGE)
      else if index == 1 && ch == '-' then Some(MSEARCH)
      else if index == 2 && ch == 'A' then Some(MKACTIVITY) else None
    else if m.SUBSCRIBE? then
      if index == 1 && ch == 'E' then Some(SEARCH) else None
    else if index == 1 && m.POST? then
      if ch == 'R' then Some(PROPFIND)
      else if ch == 'U' then Some(PUT)
      else if ch == 'A' then Some(PATCH) else None
    else if index == 2 then
      if m.PUT? && ch == 'R' then Some(PURGE)
      else if m.UNLOCK? && ch == 'S' then Some(UNSUBSCRIBE) else None
    else if index == 4 && m.PROPFIND? && ch == 'P' then Some(PROPPATCH)
    else None
  }

  // ---------------------------------------------------------------- the URL

  /** `parse_url_char`. */
  function ParseUrlChar(s: State, ch: char): State {
    if ch == ' ' || ch == CR || ch == LF || ch == '\t' || ch == FF then Dead else
    if s.ReqSpacesBeforeUrl? then
      if ch == '/' || ch == '*' then ReqPath else if IsAlpha(ch) then ReqSchema else Dead
    else if s.ReqSchema? then
      if IsAlpha(ch) then s else if ch == ':' then ReqSchemaSlash else Dead
    else if s.ReqSchemaSlash? then if ch == '/' then ReqSchemaSlashSlash else Dead
    else if s.ReqSchemaSlashSlash? then if ch == '/' then ReqServerStart else Dead
    else if s.ReqServerStart? || s.ReqServer? then ServerChar(ch)
    else if s.ReqServerWithAt? then if ch == '@' then Dead else ServerChar(ch)
    else if s.ReqPath? then
      if IsUrlChar(ch) then s else if ch == '?' then ReqQueryStringStart
      else if ch == '#' then ReqFragmentStart else Dead
    else if s.ReqQueryStringStart? || s.ReqQueryString? then QueryChar(ch)
    else if s.ReqFragmentStart? then
      if IsUrlChar(ch) || ch == '?' then ReqFragment else if ch == '#' then s else Dead
    else if s.ReqFragment? then if IsUrlChar(ch) || ch == '?' || ch == '#' then s else Dead
    else Dead
  }

  function ServerChar(ch: char): State {
    if ch == '/' then ReqPath
    else if ch == '?' then ReqQueryStringStart
    else if ch == '@' then ReqServerWithAt
    else if IsUserinfoChar(ch) || ch == '[' || ch == ']' then ReqServer
    else Dead
  }

  function QueryChar(ch: char): State {
    if IsUrlChar(ch) || ch == '?' then ReqQueryString
    else if ch == '#' then ReqFragmentStart else Dead
  }

  /** The URL states in which a blank or a line end is an error. */
  predicate UrlPrefix(s: State) {
    s.ReqSchema? || s.ReqSchemaSlash? || s.ReqSchemaSlashSlash? || s.ReqServerStart?
  }

  /** The URL states in which a blank or a line end ends the URL. */
  predicate UrlRest(s: State) {
    s.ReqServer? || s.ReqServerWithAt? || s.ReqPath? || s.ReqQueryStringStart? || s.ReqQueryString?
    || s.ReqFragmentStart? || s.ReqFragment?
  }

  /** No byte leads out of the URL states, except to the dead one. */
  lemma UrlCharStates(s: State, ch: char)
    ensures var t := ParseUrlChar(s, ch); t.Dead? || UrlPrefix(t) || UrlRest(t)
  {
  }

  // ---------------------------------------------------------------- header matchers

  /** One comparison of an incremental keyword matcher, after `index` has moved to i. */
  function KeywordMatch(h: HeaderState, i: nat, c: char, word: string, done: HeaderState): HeaderState {
    if i > |word| || c != CharAt(word, i) then General
    else if i == |word| - 1 then done
    else h
  }

  /** The state a field name starts in, from the token value of its first byte. */
  function FieldStart(c: char): HeaderState {
    match c
    case 'c' => MatchC
    case 'p' => MatchingProxyConnection
    case 't' => MatchingTransferEncoding
    case 'u' => MatchingUpgrade
    case _ => General
  }

  /** Whether `index` moves on a further byte of a field name. */
  predicate FieldCounts(h: HeaderState) {
    h.MatchC? || h.MatchCO? || h.MatchCON? || h.MatchingConnection? || h.MatchingProxyConnection?
    || h.MatchingContentLength? || h.MatchingTransferEncoding? || h.MatchingUpgrade?
  }

  /** The matcher of field names: c is the token value of a further byte, i the moved index. */
  function FieldMatch(h: HeaderState, i: nat, c: char): HeaderState {
    match h
    case MatchC => if c == 'o' then MatchCO else General
    case MatchCO => if c == 'n' then MatchCON else General
    case MatchCON =>
      if c == 'n' then MatchingConnection else if c == 't' then MatchingContentLength else General
    case MatchingConnection => KeywordMatch(h, i, c, "connection", Connection)
    case MatchingProxyConnection => KeywordMatch(h, i, c, "proxy-connection", Connection)
    case MatchingContentLength => KeywordMatch(h, i, c, "content-length", ContentLength)
    case MatchingTransferEncoding => KeywordMatch(h, i, c, "transfer-encoding", TransferEncoding)
    case MatchingUpgrade => KeywordMatch(h, i, c, "upgrade", Upgrade)
    case _ => General
  }

  predicate ValueCounts(h: HeaderState) {
    h.MatchingChunked? || h.MatchingKeepAlive? || h.MatchingClose?
  }

  /** The matcher of field values, except for Content-Length. */
  function ValueMatch(h: HeaderState, i: nat, ch: char): HeaderState {
    match h
    case MatchingChunked => KeywordMatch(h, i, Lower(ch), "chunked", Chunked)
    case MatchingKeepAlive => KeywordMatch(h, i, Lower(ch), "keep-alive", KeepAlive)
    case MatchingClose => KeywordMatch(h, i, Lower(ch), "close", Close)
    case Chunked => if ch == ' ' then h else General
    case KeepAlive => if ch == ' ' then h else General
    case Close => if ch == ' ' then h else General
    case _ => General
  }

  /** 64-bit arithmetic with the overflow guard of the C code. */
  function PushDigit(len: nat, base: nat, d: nat): (r: Option<nat>)
    ensures r.Some? ==> len <= r.value < ULLONG_MAX
  {
    var t := (len * base + d) % TWO_TO_THE_64;
    if t < len || t == ULLONG_MAX then None else Some(t)
  }

  // ---------------------------------------------------------------- one pass through the switch

  function Move(p: Parser): Effect { Effect(p, Advance, []) }

  function Emit(p: Parser, a: Atom): Effect { Effect(p, Advance, [a]) }

  function Again(p: Parser, out: seq<Atom>): Effect { Effect(p, Reexecute, out) }

  function Stop(p: Parser, e: Errno): Effect { Effect(p.(errno := e), Error, []) }

  function Expect(p: Parser, ok: bool, s: State): Effect {
    if ok then Move(p.(state := s)) else Stop(p, Strict)
  }

  function AtStartReq(p: Parser, ch: char): Effect {
    if ch == CR || ch == LF then Move(p) else
    var q := p.(flags := NO_FLAGS, contentLength := ULLONG_MAX);
    if !IsAlpha(ch) then Stop(q, InvalidMethod) else
    match FirstCandidate(ch)
    case None => Stop(q.(verb := DELETE, index := 1), InvalidMethod)
    case Some(m) => Emit(q.(verb := m, index := 1, state := ReqMethod), Begin)
  }

  function AtReqMethod(p: Parser, ch: char): Effect {
    var matcher := Spelling(p.verb);
    var q := p.(index := p.index + 1);
    if ch == '\0' then Stop(p, InvalidMethod)
    else if ch == ' ' && CharAt(matcher, p.index) == '\0' then Move(q.(state := ReqSpacesBeforeUrl))
    else if ch == CharAt(matcher, p.index) then Move(q)
    else match NextCandidate(p.verb, p.index, ch)
      case None => Stop(p, InvalidMethod)
      case Some(m) => Move(q.(verb := m))
  }

  function AtReqSpaces(p: Parser, ch: char): Effect {
    if ch == ' ' then Move(p) else
    UrlByte(p, if p.verb.CONNECT? then ReqServerStart else p.state, ch)
  }

  /** A byte of the URL, from URL state s. */
  function UrlByte(p: Parser, s: State, ch: char): Effect {
    var q := p.(state := ParseUrlChar(s, ch));
    if q.state.Dead? then Stop(q, InvalidUrl) else Emit(q, Byte(Url, ch))
  }

  function AtUrlPrefix(p: Parser, ch: char): Effect {
    if ch == ' ' || ch == CR || ch == LF then Stop(p, InvalidUrl) else UrlByte(p, p.state, ch)
  }

  function AtUrl(p: Parser, ch: char): Effect {
    if ch == ' ' then Move(p.(state := ReqHttpStart))
    else if ch == CR || ch == LF then
      Move(p.(httpMajor := 0, httpMinor := 9, state := if ch == CR then ReqLineAlmostDone else HeaderFieldStart))
    else UrlByte(p, p.state, ch)
  }

  function AtHttpStart(p: Parser, ch: char): Effect {
    if ch == 'H' then Move(p.(state := ReqHttpH))
    else if ch == ' ' then Move(p)
    else Stop(p, InvalidConstant)
  }

  predicate InHttp(s: State) {
    s.ReqHttpH? || s.ReqHttpHT? || s.ReqHttpHTT? || s.ReqHttpHTTP?
  }

  function AtHttp(p: Parser, ch: char): Effect {
    if p.state.ReqHttpH? then Expect(p, ch == 'T', ReqHttpHT)
    else if p.state.ReqHttpHT? then Expect(p, ch == 'T', ReqHttpHTT)
    else if p.state.ReqHttpHTT? then Expect(p, ch == 'P', ReqHttpHTTP)
    else Expect(p, ch == '/', ReqFirstHttpMajor)
  }

  function AtFirstMajor(p: Parser, ch: char): Effect {
    if '1' <= ch <= '9' then Move(p.(httpMajor := Digit(ch), state := ReqHttpMajor))
    else Stop(p, InvalidVersion)
  }

  function AtMajor(p: Parser, ch: char): Effect {
    if ch == '.' then Move(p.(state := ReqFirstHttpMinor))
    else if !IsNum(ch) then Stop(p, InvalidVersion)
    else
      var q := p.(httpMajor := p.httpMajor * 10 + Digit(ch));
      if q.httpMajor > 999 then Stop(q, InvalidVersion) else Move(q)
  }

  function AtFirstMinor(p: Parser, ch: char): Effect {
    if IsNum(ch) then Move(p.(httpMinor := Digit(ch), state := ReqHttpMinor)) else Stop(p, InvalidVersion)
  }

  function AtMinor(p: Parser, ch: char): Effect {
    if ch == CR then Move(p.(state := ReqLineAlmostDone))
    else if ch == LF then Move(p.(state := HeaderFieldStart))
    else if !IsNum(ch) then Stop(p, InvalidVersion)
    else
      var q := p.(httpMinor := p.httpMinor * 10 + Digit(ch));
      if q.httpMinor > 999 then Stop(q, InvalidVersion) else Move(q)
  }

  function AtLineAlmostDone(p: Parser, ch: char): Effect {
    if ch == LF then Move(p.(state := HeaderFieldStart)) else Stop(p, LfExpected)
  }

  function AtFieldStart(p: Parser, ch: char): Effect {
    if ch == CR then Move(p.(state := HeadersAlmostDone))
    else if ch == LF then Again(p.(state := HeadersAlmostDone), [])
    else if Token(ch) == '\0' then Stop(p, InvalidHeaderToken)
    else Emit(p.(index := 0, state := HeaderField, headerState := FieldStart(Token(ch))), Byte(Name, ch))
  }

  function AtField(p: Parser, ch: char): Effect {
    var c := Token(ch);
    if c != '\0' then
      var i := if FieldCounts(p.headerState) then p.index + 1 else p.index;
      Emit(p.(index := i, headerState := FieldMatch(p.headerState, i, c)), Byte(Name, ch))
    else if ch == ':' then Move(p.(state := HeaderValueStart))
    else if ch == CR then Move(p.(state := HeaderAlmostDone))
    else if ch == LF then Move(p.(state := HeaderFieldStart))
    else Stop(p, InvalidHeaderToken)
  }

  function AtValueStart(p: Parser, ch: char): Effect {
    if ch == ' ' || ch == '\t' then Move(p) else
    var q := p.(state := HeaderValue, index := 0);
    if ch == CR then Move(q.(headerState := General, state := HeaderAlmostDone))
    else if ch == LF then Move(q.(state := HeaderFieldStart))
    else AtValueFirst(q, ch)
  }

  /** The first byte of a value that is not blank. */
  function AtValueFirst(q: Parser, ch: char): Effect {
    match q.headerState
    case Upgrade => Emit(q.(flags := q.flags.(upgrade := true), headerState := General), Byte(Value, ch))
    case TransferEncoding =>
      Emit(q.(headerState := if Lower(ch) == 'c' then MatchingChunked else General), Byte(Value, ch))
    case ContentLength =>
      if IsNum(ch) then Emit(q.(contentLength := Digit(ch)), Byte(Value, ch))
      else Stop(q, InvalidContentLength)
    case Connection =>
      Emit(q.(headerState := if Lower(ch) == 'k' then MatchingKeepAlive
                             else if Lower(ch) == 'c' then MatchingClose else General), Byte(Value, ch))
    case _ => Emit(q.(headerState := General), Byte(Value, ch))
  }

  function AtValue(p: Parser, ch: char): Effect {
    if ch == CR then Move(p.(state := HeaderAlmostDone))
    else if ch == LF then Again(p.(state := HeaderAlmostDone), [])
    else if p.headerState.ContentLength? then
      if ch == ' ' then Emit(p, Byte(Value, ch))
      else if !IsNum(ch) then Stop(p, InvalidContentLength)
      else match PushDigit(p.contentLength, 10, Digit(ch))
        case None => Stop(p, InvalidContentLength)
        case Some(t) => Emit(p.(contentLength := t), Byte(Value, ch))
    else
      var i := if ValueCounts(p.headerState) then p.index + 1 else p.index;
      Emit(p.(index := i, headerState := ValueMatch(p.headerState, i, ch)), Byte(Value, ch))
  }

  /** The flags after the end of a header line. */
  function LineFlags(f: Flags, h: HeaderState): Flags {
    match h
    case KeepAlive => f.(keepAlive := true)
    case Close => f.(close := true)
    case Chunked => f.(chunked := true)
    case _ => f
  }

  function AtAlmostDone(p: Parser, ch: char): Effect {
    if ch == LF then Move(p.(state := HeaderValueLws, flags := LineFlags(p.flags, p.headerState)))
    else Stop(p, Strict)
  }

  function AtLws(p: Parser, ch: char): Effect {
    if ch == ' ' || ch == '\t' then Move(p.(state := HeaderValueStart))
    else Again(p.(state := HeaderFieldStart), [])
  }

  function EndMessage(p: Parser): Effect {
    Emit(p.(state := NewMessage(p)), Complete)
  }

  function AtHeadersAlmostDone(p: Parser, ch: char): Effect {
    if ch != LF then Stop(p, Strict)
    else if p.flags.trailing then EndMessage(p)
    else Again(p.(state := HeadersDone, upgrade := p.flags.upgrade || p.verb.CONNECT?), [HeadersComplete])
  }

  function AtHeadersDone(p: Parser, ch: char): Effect {
    var q := p.(nread := 0);
    if ch != LF then Stop(p, Strict)
    else if p.upgrade then EndMessage(q).(next := Leave)
    else if p.flags.chunked then Move(q.(state := ChunkSizeStart))
    else if p.contentLength == 0 || p.contentLength == ULLONG_MAX then EndMessage(q)
    else Move(q.(state := BodyIdentity))
  }

  function AtBodyIdentity(p: Parser, ch: char): Effect {
    if p.contentLength <= 1 then Again(p.(contentLength := 0, state := MessageDone), [Byte(Body, ch)])
    else Emit(p.(contentLength := p.contentLength - 1), Byte(Body, ch))
  }

  function AtChunkSizeStart(p: Parser, ch: char): Effect {
    if Unhex(ch) == -1 then Stop(p, InvalidChunkSize)
    else Move(p.(contentLength := Unhex(ch), state := ChunkSize))
  }

  function AtChunkSize(p: Parser, ch: char): Effect {
    if ch == CR then Move(p.(state := ChunkSizeAlmostDone))
    else if Unhex(ch) == -1 then
      if ch == ';' || ch == ' ' then Move(p.(state := ChunkParameters)) else Stop(p, InvalidChunkSize)
    else match PushDigit(p.contentLength, 16, Unhex(ch))
      case None => Stop(p, InvalidContentLength)
      case Some(t) => Move(p.(contentLength := t))
  }

  function AtChunkSizeAlmostDone(p: Parser, ch: char): Effect {
    if ch != LF then Stop(p, Strict)
    else if p.contentLength == 0 then
      Move(p.(nread := 0, flags := p.flags.(trailing := true), state := HeaderFieldStart))
    else Move(p.(nread := 0, state := ChunkData))
  }

  function AtChunkData(p: Parser, ch: char): Effect {
    if p.contentLength <= 1 then Emit(p.(contentLength := 0, state := ChunkDataAlmostDone), Byte(Body, ch))
    else Emit(p.(contentLength := p.contentLength - 1), Byte(Body, ch))
  }

  function AtChunkDataDone(p: Parser, ch: char): Effect {
    if ch == LF then Move(p.(nread := 0, state := ChunkSizeStart)) else Stop(p, Strict)
  }

  function InUrl(p: Parser, ch: char): Effect {
    if UrlPrefix(p.state) then AtUrlPrefix(p, ch) else AtUrl(p, ch)
  }

  /** The states of the request line and of the message boundary. */
  function RequestLine(p: Parser, ch: char): (m: Effect)
    ensures !m.next.Reexecute?
  {
    match p.state
    case Dead => if ch == CR || ch == LF then Move(p) else Stop(p, ClosedConnection)
    case StartReq => AtStartReq(p, ch)
    case ReqMethod => AtReqMethod(p, ch)
    case ReqSpacesBeforeUrl => AtReqSpaces(p, ch)
    case ReqHttpStart => AtHttpStart(p, ch)
    case ReqFirstHttpMajor => AtFirstMajor(p, ch)
    case ReqHttpMajor => AtMajor(p, ch)
    case ReqFirstHttpMinor => AtFirstMinor(p, ch)
    case ReqHttpMinor => AtMinor(p, ch)
    case ReqLineAlmostDone => AtLineAlmostDone(p, ch)
    case _ => if InHttp(p.state) then AtHttp(p, ch) else InUrl(p, ch)
  }

  /** The states of the header lines. */
  function HeaderLines(p: Parser, ch: char): (m: Effect)
    requires InHeaderLines(p.state)
    ensures m.next.Reexecute? ==> Rank(m.p.state) < Rank(p.state)
  {
    match p.state
    case HeaderField => AtField(p, ch)
    case HeaderValueStart => AtValueStart(p, ch)
    case HeaderValue => AtValue(p, ch)
    case HeaderAlmostDone => AtAlmostDone(p, ch)
    case HeaderValueLws => AtLws(p, ch)
    case HeadersAlmostDone => AtHeadersAlmostDone(p, ch)
    case HeadersDone => AtHeadersDone(p, ch)
    case _ => AtFieldStart(p, ch)
  }

  /** The states of the body. */
  function BodyPart(p: Parser, ch: char): (m: Effect)
    requires InBody(p.state)
    ensures m.next.Reexecute? ==> Rank(m.p.state) < Rank(p.state)
  {
    match p.state
    case BodyIdentity => AtBodyIdentity(p, ch)
    case ChunkSizeStart => AtChunkSizeStart(p, ch)
    case ChunkSize => AtChunkSize(p, ch)
    case ChunkParameters => if ch == CR then Move(p.(state := ChunkSizeAlmostDone)) else Move(p)
    case ChunkSizeAlmostDone => AtChunkSizeAlmostDone(p, ch)
    case ChunkData => AtChunkData(p, ch)
    case ChunkDataAlmostDone => Expect(p, ch == CR, ChunkDataDone)
    case ChunkDataDone => AtChunkDataDone(p, ch)
    case _ => EndMessage(p) // MessageDone
  }

  predicate InHeaderLines(s: State) {
    s.HeaderFieldStart? || s.HeaderField? || s.HeaderValueStart? || s.HeaderValue? || s.HeaderValueLws?
    || s.HeaderAlmostDone? || s.HeadersAlmostDone? || s.HeadersDone?
  }

  predicate InBody(s: State) {
    s.ChunkSizeStart? || s.ChunkSize? || s.ChunkParameters? || s.ChunkSizeAlmostDone? || s.ChunkData?
    || s.ChunkDataAlmostDone? || s.ChunkDataDone? || s.BodyIdentity? || s.MessageDone?
  }

  /** One pass through the switch on `parser->state`. */
  function Micro(p: Parser, ch: char): (m: Effect)
    ensures m.next.Reexecute? ==> Rank(m.p.state) < Rank(p.state)
  {
    if InHeaderLines(p.state) then HeaderLines(p, ch)
    else if InBody(p.state) then BodyPart(p, ch)
    else RequestLine(p, ch)
  }

  /** The measure of the backward jumps to `reexecute_byte`. */
  function Rank(s: State): nat {
    if s.HeaderValueLws? then 3
    else if s.HeaderFieldStart? then 2
    else if s.HeadersAlmostDone? || s.HeaderValue? || s.BodyIdentity? then 1
    else 0
  }

  // ---------------------------------------------------------------- bytes and buffers

  function Settle(p: Parser, ch: char): (m: Effect)
    ensures !m.next.Reexecute?
    decreases Rank(p.state)
  {
    var m := Micro(p, ch);
    if m.next.Reexecute? then
      var rest := Settle(m.p, ch);
      rest.(out := m.out + rest.out)
    else m
  }

  /** The parser after `++parser->nread`, which only the header states do. */
  function Count(p: Parser): Parser {
    if ParsingHeader(p.state) then p.(nread := p.nread + 1) else p
  }

  predicate Overflows(p: Parser) {
    ParsingHeader(p.state) && p.nread >= HTTP_MAX_HEADER_SIZE
  }

  /** The effect of one input byte. */
  function Step(p: Parser, ch: char): (m: Effect)
    ensures !m.next.Reexecute?
  {
    if Overflows(p) then Stop(Count(p), HeaderOverflow) else Settle(Count(p), ch)
  }

  /** The field whose mark is set between two bytes, if any byte of it has been read in this call. */
  function MarkOf(s: State): Option<Field> {
    if s.HeaderField? then Some(Name)
    else if s.HeaderValue? then Some(Value)
    else if UrlPrefix(s) || UrlRest(s) then Some(Url)
    else if s.BodyIdentity? || s.ChunkData? || s.ChunkDataAlmostDone? then Some(Body)
    else None
  }

  /** The marks of the states of the request line, the header lines and the body. */
  lemma RequestMarks()
    ensures MarkOf(Dead).None? && MarkOf(StartReq).None? && MarkOf(ReqMethod).None? && MarkOf(ReqSpacesBeforeUrl).None?
    ensures MarkOf(ReqHttpStart).None? && MarkOf(ReqLineAlmostDone).None? && MarkOf(HeaderFieldStart).None?
  {
  }

  lemma VersionMarks()
    ensures MarkOf(ReqHttpStart).None? && MarkOf(ReqHttpH).None? && MarkOf(ReqHttpHT).None?
    ensures MarkOf(ReqHttpHTT).None? && MarkOf(ReqHttpHTTP).None? && MarkOf(ReqFirstHttpMajor).None?
    ensures MarkOf(ReqHttpMajor).None? && MarkOf(ReqFirstHttpMinor).None? && MarkOf(ReqHttpMinor).None?
    ensures MarkOf(ReqLineAlmostDone).None? && MarkOf(HeaderFieldStart).None?
  {
    hide MarkOf;
    RequestMarks();
    HttpMarks();
    DigitMarks();
  }

  lemma HttpMarks()
    ensures MarkOf(ReqHttpH).None? && MarkOf(ReqHttpHT).None? && MarkOf(ReqHttpHTT).None? && MarkOf(ReqHttpHTTP).None?
  {
  }

  lemma DigitMarks()
    ensures MarkOf(ReqFirstHttpMajor).None? && MarkOf(ReqHttpMajor).None?
    ensures MarkOf(ReqFirstHttpMinor).None? && MarkOf(ReqHttpMinor).None?
  {
  }

  lemma UrlMark(s: State)
    ensures UrlPrefix(s) || UrlRest(s) ==> MarkOf(s) == Some(Url)
  {
  }

  lemma LineMarks()
    ensures MarkOf(HeaderFieldStart).None? && MarkOf(HeaderField) == Some(Name) && MarkOf(HeaderValueStart).None?
    ensures MarkOf(HeaderValue) == Some(Value) && MarkOf(HeaderValueLws).None? && MarkOf(HeaderAlmostDone).None?
    ensures MarkOf(HeadersAlmostDone).None? && MarkOf(HeadersDone).None?
  {
  }

  lemma BodyMarks()
    ensures MarkOf(ChunkSizeStart).None? && MarkOf(ChunkSize).None? && MarkOf(ChunkParameters).None?
    ensures MarkOf(ChunkSizeAlmostDone).None? && MarkOf(ChunkData) == Some(Body) && MarkOf(HeaderFieldStart).None?
    ensures MarkOf(ChunkDataAlmostDone) == Some(Body) && MarkOf(ChunkDataDone).None?
    ensures MarkOf(BodyIdentity) == Some(Body) && MarkOf(MessageDone).None?
    ensures MarkOf(StartReq).None? && MarkOf(Dead).None?
  {
    hide MarkOf;
    ChunkMarks();
    RequestMarks();
    IdentityMarks();
  }

  lemma ChunkMarks()
    ensures MarkOf(ChunkSizeStart).None? && MarkOf(ChunkSize).None? && MarkOf(ChunkParameters).None?
    ensures MarkOf(ChunkSizeAlmostDone).None? && MarkOf(ChunkDataDone).None?
  {
  }

  lemma IdentityMarks()
    ensures MarkOf(ChunkData) == Some(Body) && MarkOf(ChunkDataAlmostDone) == Some(Body)
    ensures MarkOf(BodyIdentity) == Some(Body) && MarkOf(MessageDone).None?
  {
  }

  /** What a call does: the final parser, the bytes it reports as read, the atoms it assigned,
      how many of them at the end are still pending behind a mark, and how it ended. */
  datatype Result = Result(p: Parser, used: nat, out: seq<Atom>, held: nat, end: Next)

  function Run(p: Parser, held: nat, data: string): (r: Result)
    ensures r.used <= |data| && !r.end.Reexecute?
    ensures r.end.Advance? ==> r.used == |data|
    decreases |data|
  {
    if data == [] then Result(p, 0, [], held, Advance) else
    var m := Step(p, data[0]);
    if m.next.Error? then Result(m.p, 0, m.out, held, Error)
    else if m.next.Leave? then Result(m.p, 1, m.out, 0, Leave)
    else
      var r := Run(m.p, Hold(held, m), data[1..]);
      r.(used := r.used + 1, out := m.out + r.out)
  }

  /** The number of pending atoms after a byte: a mark, once dropped, leaves none. */
  function Hold(held: nat, m: Effect): nat {
    if MarkOf(m.p.state).None? then 0
    else if m.out != [] && m.out[|m.out| - 1].Byte? then held + 1
    else held
  }

  /** The atoms that a call hands to the callbacks: the error exit drops what is pending. */
  function Delivered(r: Result): seq<Atom> {
    if r.end.Error? && r.held <= |r.out| then r.out[..|r.out| - r.held] else r.out
  }

  /** The states in which a call with an empty buffer is no error. */
  predicate Idle(s: State) {
    s.StartReq? || s.Dead?
  }

  /** One call of `http_parser_execute`: after an error it does nothing, and an empty buffer stands for
      the end of the stream, which is an error inside a message. */
  function Invoke(p: Parser, data: string): Result {
    if !p.errno.Ok? then Result(p, 0, [], 0, Error)
    else if data != "" then Run(p, 0, data)
    else if Idle(p.state) then Result(p, 0, [], 0, Advance)
    else Result(p.(errno := InvalidEofState), 1, [], 0, Error)
  }
}
