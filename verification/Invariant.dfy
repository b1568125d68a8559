/** The invariant behind the assertions of `http_parser_execute`. */
module Invariant {
  import opened Chars
  import opened Options
  import opened Parser

  /** The header states that the field-name matcher can be in, with `index` inside its keyword. */
  predicate FieldMatcher(h: HeaderState, index: nat) {
    && !h.MatchingChunked? && !h.MatchingKeepAlive? && !h.MatchingClose? && !h.Chunked? && !h.KeepAlive? && !h.Close?
    && (h.MatchC? ==> index == 0)
    && (h.MatchCO? ==> index == 1)
    && (h.MatchCON? ==> index == 2)
    && (h.MatchingConnection? ==> 3 <= index < 9)
    && (h.MatchingProxyConnection? ==> index < 15)
    && (h.MatchingContentLength? ==> 3 <= index < 13)
    && (h.MatchingTransferEncoding? ==> index < 16)
    && (h.MatchingUpgrade? ==> index < 6)
  }

  /** The header states that the value matcher can be in, with `index` inside its keyword. */
  predicate ValueMatcher(h: HeaderState, index: nat) {
    || h.General? || h.ContentLength? || h.Chunked? || h.KeepAlive? || h.Close?
    || (h.MatchingChunked? && index < 6)
    || (h.MatchingKeepAlive? && index < 9)
    || (h.MatchingClose? && index < 4)
  }

  /** In s_req_method the subscript stays inside the candidate's spelling and its terminating NUL. */
  predicate MethodInside(p: Parser) {
    p.state.ReqMethod? ==> 0 < p.index <= |Spelling(p.verb)|
  }

  predicate InChunk(s: State) {
    s.ChunkSizeStart? || s.ChunkSize? || s.ChunkParameters? || s.ChunkSizeAlmostDone?
    || s.ChunkData? || s.ChunkDataAlmostDone? || s.ChunkDataDone?
  }

  /** What each state promises; counted is the value of `nread` at the start of a chunk size line,
      0 between two bytes and 1 inside the switch. */
  predicate Sound(p: Parser, counted: nat) {
    && p.errno.Ok?
    && p.nread <= HTTP_MAX_HEADER_SIZE && p.contentLength <= ULLONG_MAX
    && p.httpMajor <= 999 && p.httpMinor <= 999
    && MethodInside(p)
    && (InChunk(p.state) ==> p.flags.chunked && !p.flags.trailing)
    && (p.state.HeadersDone? ==> !p.flags.trailing)
    && (p.state.HeaderField? ==> FieldMatcher(p.headerState, p.index))
    && (p.state.HeaderValue? ==> ValueMatcher(p.headerState, p.index)
                                 && (p.headerState.ContentLength? ==> p.contentLength < ULLONG_MAX))
    && (p.state.ChunkSizeStart? ==> p.nread == counted)
    && (p.state.ChunkSize? || p.state.ChunkParameters? || p.state.ChunkSizeAlmostDone?
        ==> p.contentLength < ULLONG_MAX)
    && (p.state.ChunkData? || p.state.BodyIdentity? ==> 0 < p.contentLength < ULLONG_MAX)
    && (p.state.ChunkDataAlmostDone? || p.state.ChunkDataDone? ==> p.contentLength == 0)
  }

  /** The invariant between two bytes: two states only ever occur inside the switch. */
  predicate Inv(p: Parser) {
    Sound(p, 0) && !p.state.HeadersDone? && !p.state.MessageDone?
  }

  predicate KeptBy(m: Effect) {
    if m.next.Error? then !m.p.errno.Ok? && m.out == []
    else if m.next.Reexecute? then Sound(m.p, 1)
    else Inv(m.p)
  }

  /** One pass through the switch keeps the invariant, whatever the byte. */
  lemma MicroKeepsSound(p: Parser, ch: char)
    requires Sound(p, 1)
    ensures KeptBy(Micro(p, ch))
  {
    if p.state.HeaderField? { FieldKeepsSound(p, ch); }
    else if p.state.HeaderValueStart? { ValueStartKeepsSound(p, ch); }
    else if p.state.HeaderValue? { ValueKeepsSound(p, ch); }
    else if InHeaderLines(p.state) { LineKeepsSound(p, ch); }
    else if InBody(p.state) { BodyKeepsSound(p, ch); }
    else if MarkOf(p.state) == Some(Url) { UrlKeepsSound(p, ch); }
    else if InVersion(p.state) { VersionKeepsSound(p, ch); }
    else { RequestStartKeepsSound(p, ch); }
  }

  predicate InVersion(s: State) {
    s.ReqHttpStart? || s.ReqHttpH? || s.ReqHttpHT? || s.ReqHttpHTT? || s.ReqHttpHTTP? || s.ReqFirstHttpMajor?
    || s.ReqHttpMajor? || s.ReqFirstHttpMinor? || s.ReqHttpMinor? || s.ReqLineAlmostDone?
  }

  /** A byte of the version only moves the parser on in the request line, and sets the version. */
  predicate OnlyVersion(p: Parser, m: Effect) {
    && m.out == [] && (m.next.Advance? || m.next.Error?)
    && (m.next.Error? ==> !m.p.errno.Ok?)
    && (m.next.Advance? ==>
          && m.p == p.(state := m.p.state, httpMajor := m.p.httpMajor, httpMinor := m.p.httpMinor)
          && (InVersion(m.p.state) || m.p.state.HeaderFieldStart?)
          && (p.httpMajor <= 999 ==> m.p.httpMajor <= 999) && (p.httpMinor <= 999 ==> m.p.httpMinor <= 999))
  }

  lemma VersionMoves(p: Parser, ch: char)
    requires InVersion(p.state)
    ensures OnlyVersion(p, RequestLine(p, ch))
  {
    hide OnlyVersion, AtMajor, AtMinor, AtHttp, AtFirstMajor, AtFirstMinor, AtHttpStart, AtLineAlmostDone;
    if p.state.ReqHttpMajor? || p.state.ReqHttpMinor? { NumberMoves(p, ch); }
    else if InHttp(p.state) { HttpMoves(p, ch); }
    else { VersionEdgeMoves(p, ch); }
  }

  lemma NumberMoves(p: Parser, ch: char)
    ensures p.state.ReqHttpMajor? ==> OnlyVersion(p, AtMajor(p, ch))
    ensures p.state.ReqHttpMinor? ==> OnlyVersion(p, AtMinor(p, ch))
  {
  }

  lemma HttpMoves(p: Parser, ch: char)
    requires InHttp(p.state)
    ensures OnlyVersion(p, AtHttp(p, ch))
  {
  }

  lemma VersionEdgeMoves(p: Parser, ch: char)
    ensures p.state.ReqHttpStart? ==> OnlyVersion(p, AtHttpStart(p, ch))
    ensures p.state.ReqFirstHttpMajor? ==> OnlyVersion(p, AtFirstMajor(p, ch))
    ensures p.state.ReqFirstHttpMinor? ==> OnlyVersion(p, AtFirstMinor(p, ch))
    ensures p.state.ReqLineAlmostDone? ==> OnlyVersion(p, AtLineAlmostDone(p, ch))
  {
  }

  lemma VersionKeepsSound(p: Parser, ch: char)
    requires Sound(p, 1) && InVersion(p.state)
    ensures KeptBy(RequestLine(p, ch))
  {
    hide RequestLine, Spelling;
    VersionMoves(p, ch);
  }

  lemma RequestStartKeepsSound(p: Parser, ch: char)
    requires Sound(p, 1) && !InHeaderLines(p.state) && !InBody(p.state) && MarkOf(p.state).None?
    requires !InVersion(p.state)
    ensures KeptBy(RequestLine(p, ch))
  {
    hide Sound, Inv, KeptBy, AtStartReq, AtReqMethod, AtReqSpaces;
    if p.state.Dead? { DeadKeepsSound(p, ch); }
    else if p.state.StartReq? { StartKeepsSound(p, ch); }
    else if p.state.ReqMethod? { MethodKeepsSound(p, ch); }
    else { SpacesKeepSound(p, ch); }
  }

  lemma DeadKeepsSound(p: Parser, ch: char)
    requires Sound(p, 1) && p.state.Dead?
    ensures KeptBy(Move(p)) && KeptBy(Stop(p, ClosedConnection))
  {
    hide Spelling;
  }

  lemma StartKeepsSound(p: Parser, ch: char)
    requires Sound(p, 1) && p.state.StartReq?
    ensures KeptBy(AtStartReq(p, ch))
  {
    hide Spelling, FirstCandidate;
  }

  /** A candidate that replaces another is long enough for the byte read. */
  lemma NextIsLonger(m: Method, index: nat, ch: char)
    requires NextCandidate(m, index, ch).Some?
    ensures index < |Spelling(NextCandidate(m, index, ch).value)|
  {
  }

  lemma MethodKeepsSound(p: Parser, ch: char)
    requires Sound(p, 1) && p.state.ReqMethod?
    ensures KeptBy(AtReqMethod(p, ch))
  {
    hide Spelling, NextCandidate;
    if NextCandidate(p.verb, p.index, ch).Some? { NextIsLonger(p.verb, p.index, ch); }
  }

  lemma SpacesKeepSound(p: Parser, ch: char)
    requires Sound(p, 1) && p.state.ReqSpacesBeforeUrl?
    ensures KeptBy(AtReqSpaces(p, ch))
  {
    hide ParseUrlChar, Spelling;
    UrlCharStates(ReqSpacesBeforeUrl, ch);
    UrlCharStates(ReqServerStart, ch);
  }

  lemma UrlKeepsSound(p: Parser, ch: char)
    requires Sound(p, 1) && MarkOf(p.state) == Some(Url)
    ensures KeptBy(RequestLine(p, ch))
  {
    if ch == ' ' || ch == CR || ch == LF {
      UrlEndKeepsSound(p, ch);
    } else {
      var s := ParseUrlChar(p.state, ch);
      UrlCharStates(p.state, ch);
      if !s.Dead? { UrlStateKeepsSound(p, s); }
      assert RequestLine(p, ch) == UrlByte(p, p.state, ch);
      hide ParseUrlChar, UrlPrefix, UrlRest, RequestLine, Sound;
    }
  }

  lemma UrlStateKeepsSound(p: Parser, s: State)
    requires Sound(p, 1) && (UrlPrefix(s) || UrlRest(s))
    ensures Inv(p.(state := s))
  {
  }

  lemma UrlEndKeepsSound(p: Parser, ch: char)
    requires Sound(p, 1) && MarkOf(p.state) == Some(Url) && (ch == ' ' || ch == CR || ch == LF)
    ensures KeptBy(RequestLine(p, ch))
  {
    assert RequestLine(p, ch) == InUrl(p, ch);
    hide RequestLine;
  }

  lemma LineKeepsSound(p: Parser, ch: char)
    requires Sound(p, 1) && InHeaderLines(p.state)
    requires !p.state.HeaderField? && !p.state.HeaderValueStart? && !p.state.HeaderValue?
    ensures KeptBy(HeaderLines(p, ch))
  {
    hide Sound, KeptBy, AtFieldStart, AtAlmostDone, AtLws, AtHeadersAlmostDone, AtHeadersDone;
    if p.state.HeadersAlmostDone? || p.state.HeadersDone? { HeadersEndKeepsSound(p, ch); }
    else if p.state.HeaderFieldStart? { FieldStartKeepsSound(p, ch); }
    else { LineEndKeepsSound(p, ch); }
  }

  lemma FieldStartKeepsSound(p: Parser, ch: char)
    requires Sound(p, 1) && p.state.HeaderFieldStart?
    ensures KeptBy(AtFieldStart(p, ch))
  {
    hide Spelling, Token;
  }

  lemma LineEndKeepsSound(p: Parser, ch: char)
    requires Sound(p, 1)
    ensures p.state.HeaderAlmostDone? ==> KeptBy(AtAlmostDone(p, ch))
    ensures p.state.HeaderValueLws? ==> KeptBy(AtLws(p, ch))
  {
    hide LineFlags, Spelling;
    LineFlagsKeepTrailing(p.flags, p.headerState);
  }

  lemma LineFlagsKeepTrailing(f: Flags, h: HeaderState)
    ensures LineFlags(f, h).trailing == f.trailing
  {
  }

  lemma HeadersEndKeepsSound(p: Parser, ch: char)
    requires Sound(p, 1)
    ensures p.state.HeadersAlmostDone? ==> KeptBy(AtHeadersAlmostDone(p, ch))
    ensures p.state.HeadersDone? ==> KeptBy(AtHeadersDone(p, ch))
  {
    hide NewMessage, Spelling;
  }

  lemma BodyKeepsSound(p: Parser, ch: char)
    requires Sound(p, 1) && InBody(p.state)
    ensures KeptBy(BodyPart(p, ch))
  {
    hide Sound, KeptBy, AtBodyIdentity, AtChunkSizeStart, AtChunkSize, AtChunkSizeAlmostDone, AtChunkData,
         AtChunkDataDone, EndMessage;
    if p.state.BodyIdentity? || p.state.MessageDone? { IdentityKeepsSound(p, ch); }
    else if p.state.ChunkSizeStart? || p.state.ChunkSize? { SizeKeepsSound(p, ch); }
    else if p.state.ChunkParameters? || p.state.ChunkSizeAlmostDone? { SizeEndKeepsSound(p, ch); }
    else { DataKeepsSound(p, ch); }
  }

  lemma IdentityKeepsSound(p: Parser, ch: char)
    requires Sound(p, 1)
    ensures p.state.BodyIdentity? ==> KeptBy(AtBodyIdentity(p, ch))
    ensures p.state.MessageDone? ==> KeptBy(EndMessage(p))
  {
    hide NewMessage, Spelling;
  }

  lemma SizeKeepsSound(p: Parser, ch: char)
    requires Sound(p, 1)
    ensures p.state.ChunkSizeStart? ==> KeptBy(AtChunkSizeStart(p, ch))
    ensures p.state.ChunkSize? ==> KeptBy(AtChunkSize(p, ch))
  {
    hide PushDigit, Unhex, Spelling;
  }

  lemma SizeEndKeepsSound(p: Parser, ch: char)
    requires Sound(p, 1)
    ensures p.state.ChunkParameters? ==> KeptBy(if ch == CR then Move(p.(state := ChunkSizeAlmostDone)) else Move(p))
    ensures p.state.ChunkSizeAlmostDone? ==> KeptBy(AtChunkSizeAlmostDone(p, ch))
  {
    hide Spelling;
  }

  lemma DataKeepsSound(p: Parser, ch: char)
    requires Sound(p, 1)
    ensures p.state.ChunkData? ==> KeptBy(AtChunkData(p, ch))
    ensures p.state.ChunkDataAlmostDone? ==> KeptBy(Expect(p, ch == CR, ChunkDataDone))
    ensures p.state.ChunkDataDone? ==> KeptBy(AtChunkDataDone(p, ch))
  {
    hide Spelling;
  }

  lemma FieldMatchStaysInside(h: HeaderState, index: nat, c: char)
    requires FieldMatcher(h, index)
    ensures var i := if FieldCounts(h) then index + 1 else index; FieldMatcher(FieldMatch(h, i, c), i)
  {
  }

  lemma FieldKeepsSound(p: Parser, ch: char)
    requires Sound(p, 1) && p.state.HeaderField?
    ensures KeptBy(HeaderLines(p, ch))
  {
    hide FieldMatch;
    FieldMatchStaysInside(p.headerState, p.index, Token(ch));
  }

  lemma ValueStartKeepsSound(p: Parser, ch: char)
    requires Sound(p, 1) && p.state.HeaderValueStart?
    ensures KeptBy(HeaderLines(p, ch))
  {
    hide AtValueFirst, Spelling;
    assert HeaderLines(p, ch) == AtValueStart(p, ch);
    ValueFirstKeepsSound(p, ch);
  }

  lemma ValueFirstKeepsSound(p: Parser, ch: char)
    requires Sound(p, 1) && p.state.HeaderValueStart?
    ensures KeptBy(AtValueFirst(p.(state := HeaderValue, index := 0), ch))
  {
    hide Spelling, Lower;
  }

  lemma ValueMatchStaysInside(h: HeaderState, index: nat, ch: char)
    requires ValueMatcher(h, index) && !h.ContentLength?
    ensures var i := if ValueCounts(h) then index + 1 else index;
            ValueMatcher(ValueMatch(h, i, ch), i) && !ValueMatch(h, i, ch).ContentLength?
  {
  }

  lemma ValueKeepsSound(p: Parser, ch: char)
    requires Sound(p, 1) && p.state.HeaderValue?
    ensures KeptBy(HeaderLines(p, ch))
  {
    hide PushDigit, ValueMatch;
    if !p.headerState.ContentLength? { ValueMatchStaysInside(p.headerState, p.index, ch); }
  }

  lemma {:induction false} SettleKeepsInv(p: Parser, ch: char)
    requires Sound(p, 1)
    ensures var m := Settle(p, ch); if m.next.Error? then !m.p.errno.Ok? else Inv(m.p)
    decreases Rank(p.state)
  {
    MicroKeepsSound(p, ch);
    var m := Micro(p, ch);
    if m.next.Reexecute? { SettleKeepsInv(m.p, ch); }
  }

  lemma StepKeepsInv(p: Parser, ch: char)
    requires Inv(p)
    ensures var m := Step(p, ch); if m.next.Error? then !m.p.errno.Ok? else Inv(m.p)
    ensures !Overflows(p) ==> Sound(Count(p), 1)
  {
    if !Overflows(p) { SettleKeepsInv(Count(p), ch); }
  }

  /** Every run that starts sound either ends with an error number or ends sound; in particular the
      header byte count never passes its limit without an error. */
  lemma {:induction false} RunKeepsInv(p: Parser, held: nat, data: string)
    requires Inv(p)
    ensures var r := Run(p, held, data); if r.end.Error? then !r.p.errno.Ok? else Inv(r.p)
    decreases |data|
  {
    if data != [] {
      StepKeepsInv(p, data[0]);
      var m := Step(p, data[0]);
      if m.next.Advance? {
        RunKeepsInv(m.p, Hold(held, m), data[1..]);
      }
    }
  }
}
