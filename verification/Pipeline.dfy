/** Pipelining: nothing of an earlier message leaks into the next one. */
module Pipeline {
  import opened Chars
  import opened Parser
  import opened Split
  import opened HeaderLimit

  /** The states in which the value of `http_major` still matters. */
  predicate MajorLives(s: State) {
    InHeaderLines(s) || InBody(s) || s.ReqHttpMajor? || s.ReqFirstHttpMinor? || s.ReqHttpMinor? || s.ReqLineAlmostDone?
  }

  predicate MinorLives(s: State) {
    InHeaderLines(s) || InBody(s) || s.ReqHttpMinor? || s.ReqLineAlmostDone?
  }

  predicate HeaderStateLives(s: State) {
    s.HeaderField? || s.HeaderValueStart? || s.HeaderValue? || s.HeaderAlmostDone? || s.HeaderValueLws?
  }

  predicate IndexLives(p: Parser) {
    p.state.ReqMethod? || (p.state.HeaderField? && FieldCounts(p.headerState))
    || (p.state.HeaderValue? && ValueCounts(p.headerState))
  }

  /** Two parsers that agree on every field whose value still matters; only the header byte count of
      the first may be ahead. Everything else is stale. */
  predicate Alike(p: Parser, q: Parser) {
    && p.state == q.state && p.errno == q.errno && p.nread >= q.nread
    && (!Idle(p.state) ==> p.verb == q.verb && p.flags == q.flags && p.contentLength == q.contentLength)
    && (MajorLives(p.state) ==> p.httpMajor == q.httpMajor)
    && (MinorLives(p.state) ==> p.httpMinor == q.httpMinor)
    && (HeaderStateLives(p.state) ==> p.headerState == q.headerState)
    && (IndexLives(p) ==> p.index == q.index)
    && (p.state.HeadersDone? ==> p.upgrade == q.upgrade)
  }

  /** The same effect on both, up to stale fields. */
  predicate AlikeEffects(p: Parser, q: Parser, m: Effect, n: Effect) {
    && m.next == n.next && m.out == n.out && m.p.errno == n.p.errno
    && (!m.next.Error? ==> Alike(m.p, n.p))
    && (m.p.nread == n.p.nread || m.p.nread - n.p.nread == p.nread - q.nread)
  }

  lemma MicroAlike(p: Parser, q: Parser, ch: char)
    requires Alike(p, q)
    ensures AlikeEffects(p, q, Micro(p, ch), Micro(q, ch))
  {
    hide Alike, AlikeEffects, HeaderLines, BodyPart, RequestLine;
    StateAlike(p, q);
    if InHeaderLines(p.state) { HeaderLinesAlike(p, q, ch); }
    else if InBody(p.state) { BodyAlike(p, q, ch); }
    else { RequestLineAlike(p, q, ch); }
  }

  lemma StateAlike(p: Parser, q: Parser)
    requires Alike(p, q)
    ensures p.state == q.state && p.errno == q.errno && p.nread >= q.nread
  {
  }

  // The request line.

  lemma RequestLineAlike(p: Parser, q: Parser, ch: char)
    requires Alike(p, q) && !InHeaderLines(p.state) && !InBody(p.state)
    ensures AlikeEffects(p, q, RequestLine(p, ch), RequestLine(q, ch))
  {
    hide Alike, AlikeEffects, AtStartReq, AtReqMethod, AtReqSpaces, AtHttp, InUrl;
    StateAlike(p, q);
    if p.state.Dead? { DeadAlike(p, q); }
    else if p.state.ReqHttpStart? { HttpStartAlike(p, q, ch); }
    else if p.state.ReqLineAlmostDone? { RequestLineEndAlike(p, q, ch); }
    else if p.state.StartReq? { StartAlike(p, q, ch); }
    else if p.state.ReqMethod? { MethodAlike(p, q, ch); }
    else if p.state.ReqSpacesBeforeUrl? { SpacesAlike(p, q, ch); }
    else if p.state.ReqFirstHttpMajor? { FirstMajorAlike(p, q, ch); }
    else if p.state.ReqFirstHttpMinor? { FirstMinorAlike(p, q, ch); }
    else if p.state.ReqHttpMajor? { MajorAlike(p, q, ch); }
    else if p.state.ReqHttpMinor? { MinorAlike(p, q, ch); }
    else if InHttp(p.state) { HttpAlike(p, q, ch); }
    else { UrlAlike(p, q, ch); }
  }

  lemma DeadAlike(p: Parser, q: Parser)
    requires Alike(p, q) && p.state.Dead?
    ensures AlikeEffects(p, q, Move(p), Move(q))
    ensures AlikeEffects(p, q, Stop(p, ClosedConnection), Stop(q, ClosedConnection))
  {
  }

  lemma HttpStartAlike(p: Parser, q: Parser, ch: char)
    requires Alike(p, q) && p.state.ReqHttpStart?
    ensures AlikeEffects(p, q, AtHttpStart(p, ch), AtHttpStart(q, ch))
  {
  }

  lemma RequestLineEndAlike(p: Parser, q: Parser, ch: char)
    requires Alike(p, q) && p.state.ReqLineAlmostDone?
    ensures AlikeEffects(p, q, AtLineAlmostDone(p, ch), AtLineAlmostDone(q, ch))
  {
  }

  lemma StartAlike(p: Parser, q: Parser, ch: char)
    requires Alike(p, q) && p.state.StartReq?
    ensures AlikeEffects(p, q, AtStartReq(p, ch), AtStartReq(q, ch))
  {
    hide FirstCandidate;
  }

  lemma MethodAlike(p: Parser, q: Parser, ch: char)
    requires Alike(p, q) && p.state.ReqMethod?
    ensures AlikeEffects(p, q, AtReqMethod(p, ch), AtReqMethod(q, ch))
  {
    hide Alike, Spelling, NextCandidate;
    StateAlike(p, q);
    MethodMoveAlike(p, q, ReqSpacesBeforeUrl, p.verb);
    MethodMoveAlike(p, q, ReqMethod, p.verb);
    var c := NextCandidate(p.verb, p.index, ch);
    if c.Some? { MethodMoveAlike(p, q, ReqMethod, c.value); }
  }

  lemma MethodMoveAlike(p: Parser, q: Parser, s: State, m: Method)
    requires Alike(p, q) && p.state.ReqMethod? && (s.ReqMethod? || s.ReqSpacesBeforeUrl?)
    ensures Alike(p.(index := p.index + 1, state := s, verb := m), q.(index := q.index + 1, state := s, verb := m))
    ensures p.verb == q.verb && p.index == q.index
  {
  }

  /** A URL byte, from URL state s. */
  lemma UrlByteAlike(p: Parser, q: Parser, s: State, ch: char)
    requires Alike(p, q) && (p.state.ReqSpacesBeforeUrl? || UrlPrefix(p.state) || UrlRest(p.state))
    ensures AlikeEffects(p, q, UrlByte(p, s, ch), UrlByte(q, s, ch))
  {
    hide ParseUrlChar, Alike, UrlPrefix, UrlRest;
    UrlCharStates(s, ch);
    StateAlike(p, q);
    UrlMoveAlike(p, q, ParseUrlChar(s, ch));
  }

  lemma UrlMoveAlike(p: Parser, q: Parser, t: State)
    requires Alike(p, q) && (p.state.ReqSpacesBeforeUrl? || UrlPrefix(p.state) || UrlRest(p.state))
    requires t.Dead? || UrlPrefix(t) || UrlRest(t)
    ensures Alike(p.(state := t), q.(state := t))
  {
  }

  lemma SpacesAlike(p: Parser, q: Parser, ch: char)
    requires Alike(p, q) && p.state.ReqSpacesBeforeUrl?
    ensures AlikeEffects(p, q, AtReqSpaces(p, ch), AtReqSpaces(q, ch))
  {
    hide UrlByte;
    UrlByteAlike(p, q, if p.verb.CONNECT? then ReqServerStart else p.state, ch);
  }

  lemma UrlAlike(p: Parser, q: Parser, ch: char)
    requires Alike(p, q) && (UrlPrefix(p.state) || UrlRest(p.state))
    ensures AlikeEffects(p, q, InUrl(p, ch), InUrl(q, ch))
  {
    hide UrlByte, Alike, AlikeEffects, UrlPrefix, UrlRest;
    StateAlike(p, q);
    UrlByteAlike(p, q, p.state, ch);
    UrlBlankAlike(p, q);
    UrlEndAlike(p, q, ch);
  }

  lemma UrlBlankAlike(p: Parser, q: Parser)
    requires Alike(p, q) && (UrlPrefix(p.state) || UrlRest(p.state))
    ensures AlikeEffects(p, q, Stop(p, InvalidUrl), Stop(q, InvalidUrl))
    ensures AlikeEffects(p, q, Move(p.(state := ReqHttpStart)), Move(q.(state := ReqHttpStart)))
  {
  }

  lemma UrlEndAlike(p: Parser, q: Parser, ch: char)
    requires Alike(p, q) && (UrlPrefix(p.state) || UrlRest(p.state))
    ensures var s := if ch == CR then ReqLineAlmostDone else HeaderFieldStart;
            AlikeEffects(p, q, Move(p.(httpMajor := 0, httpMinor := 9, state := s)),
                         Move(q.(httpMajor := 0, httpMinor := 9, state := s)))
  {
  }

  lemma MajorAlike(p: Parser, q: Parser, ch: char)
    requires Alike(p, q) && p.state.ReqHttpMajor?
    ensures AlikeEffects(p, q, AtMajor(p, ch), AtMajor(q, ch))
  {
    hide IsNum, Digit;
  }

  lemma MinorAlike(p: Parser, q: Parser, ch: char)
    requires Alike(p, q) && p.state.ReqHttpMinor?
    ensures AlikeEffects(p, q, AtMinor(p, ch), AtMinor(q, ch))
  {
    hide IsNum, Digit;
  }

  lemma FirstMajorAlike(p: Parser, q: Parser, ch: char)
    requires Alike(p, q) && p.state.ReqFirstHttpMajor?
    ensures AlikeEffects(p, q, AtFirstMajor(p, ch), AtFirstMajor(q, ch))
  {
    hide IsNum, Digit;
  }

  lemma FirstMinorAlike(p: Parser, q: Parser, ch: char)
    requires Alike(p, q) && p.state.ReqFirstHttpMinor?
    ensures AlikeEffects(p, q, AtFirstMinor(p, ch), AtFirstMinor(q, ch))
  {
    hide IsNum, Digit;
  }

  lemma HttpAlike(p: Parser, q: Parser, ch: char)
    requires Alike(p, q) && InHttp(p.state)
    ensures AlikeEffects(p, q, AtHttp(p, ch), AtHttp(q, ch))
  {
    hide Alike, AlikeEffects, Expect;
    StateAlike(p, q);
    ExpectAlike(p, q, ch == 'T', ReqHttpHT);
    ExpectAlike(p, q, ch == 'T', ReqHttpHTT);
    ExpectAlike(p, q, ch == 'P', ReqHttpHTTP);
    ExpectAlike(p, q, ch == '/', ReqFirstHttpMajor);
  }

  lemma ExpectAlike(p: Parser, q: Parser, ok: bool, s: State)
    requires Alike(p, q) && InHttp(p.state) && (InHttp(s) || s.ReqFirstHttpMajor?)
    ensures AlikeEffects(p, q, Expect(p, ok, s), Expect(q, ok, s))
  {
  }

  // The header lines.

  lemma HeaderLinesAlike(p: Parser, q: Parser, ch: char)
    requires Alike(p, q) && InHeaderLines(p.state)
    ensures AlikeEffects(p, q, HeaderLines(p, ch), HeaderLines(q, ch))
  {
    hide Alike, AlikeEffects, AtField, AtValueStart, AtValue, AtAlmostDone, AtLws, AtHeadersAlmostDone, AtHeadersDone,
         AtFieldStart;
    StateAlike(p, q);
    if p.state.HeaderField? { FieldAlike(p, q, ch); }
    else if p.state.HeaderValueStart? { ValueStartAlike(p, q, ch); }
    else if p.state.HeaderValue? { ValueAlike(p, q, ch); }
    else if p.state.HeadersAlmostDone? { EmptyLineAlike(p, q, ch); }
    else if p.state.HeadersDone? { HeadersEndAlike(p, q, ch); }
    else if p.state.HeaderFieldStart? { FieldStartAlike(p, q, ch); }
    else { LineEndAlike(p, q, ch); }
  }

  lemma FieldStartAlike(p: Parser, q: Parser, ch: char)
    requires Alike(p, q) && p.state.HeaderFieldStart?
    ensures AlikeEffects(p, q, AtFieldStart(p, ch), AtFieldStart(q, ch))
  {
    hide FieldStart, Token;
  }

  lemma LineEndAlike(p: Parser, q: Parser, ch: char)
    requires Alike(p, q)
    ensures p.state.HeaderAlmostDone? ==> AlikeEffects(p, q, AtAlmostDone(p, ch), AtAlmostDone(q, ch))
    ensures p.state.HeaderValueLws? ==> AlikeEffects(p, q, AtLws(p, ch), AtLws(q, ch))
  {
    hide Alike, AlikeEffects, AtAlmostDone, AtLws;
    if p.state.HeaderAlmostDone? { AlmostDoneAlike(p, q, ch); }
    if p.state.HeaderValueLws? { LwsAlike(p, q, ch); }
  }

  lemma AlmostDoneAlike(p: Parser, q: Parser, ch: char)
    requires Alike(p, q) && p.state.HeaderAlmostDone?
    ensures AlikeEffects(p, q, AtAlmostDone(p, ch), AtAlmostDone(q, ch))
  {
    hide LineFlags;
  }

  lemma LwsAlike(p: Parser, q: Parser, ch: char)
    requires Alike(p, q) && p.state.HeaderValueLws?
    ensures AlikeEffects(p, q, AtLws(p, ch), AtLws(q, ch))
  {
  }

  lemma FieldAlike(p: Parser, q: Parser, ch: char)
    requires Alike(p, q) && p.state.HeaderField?
    ensures AlikeEffects(p, q, AtField(p, ch), AtField(q, ch))
  {
    hide Alike, AlikeEffects, FieldMatch, Token;
    if Token(ch) != '\0' { TokenAlike(p, q, ch); } else { FieldEndAlike(p, q, ch); }
  }

  lemma TokenAlike(p: Parser, q: Parser, ch: char)
    requires Alike(p, q) && p.state.HeaderField? && Token(ch) != '\0'
    ensures AlikeEffects(p, q, AtField(p, ch), AtField(q, ch))
  {
    hide FieldMatch, Token;
    var i := if FieldCounts(p.headerState) then p.index + 1 else p.index;
    var j := if FieldCounts(p.headerState) then q.index + 1 else q.index;
    FieldMatchStale(p.headerState, i, j, Token(ch));
  }

  lemma FieldEndAlike(p: Parser, q: Parser, ch: char)
    requires Alike(p, q) && p.state.HeaderField? && Token(ch) == '\0'
    ensures AlikeEffects(p, q, AtField(p, ch), AtField(q, ch))
  {
    hide Alike, Token;
    StateAlike(p, q);
    NameEndAlike(p, q, HeaderValueStart);
    NameEndAlike(p, q, HeaderAlmostDone);
    NameEndAlike(p, q, HeaderFieldStart);
  }

  lemma NameEndAlike(p: Parser, q: Parser, s: State)
    requires Alike(p, q) && p.state.HeaderField?
    requires s.HeaderValueStart? || s.HeaderAlmostDone? || s.HeaderFieldStart?
    ensures Alike(p.(state := s), q.(state := s))
  {
  }

  lemma FieldMatchStale(h: HeaderState, i: nat, j: nat, c: char)
    requires FieldCounts(h) ==> i == j
    ensures FieldMatch(h, i, c) == FieldMatch(h, j, c)
    ensures FieldCounts(FieldMatch(h, i, c)) ==> FieldCounts(h)
  {
  }

  lemma ValueStartAlike(p: Parser, q: Parser, ch: char)
    requires Alike(p, q) && p.state.HeaderValueStart?
    ensures AlikeEffects(p, q, AtValueStart(p, ch), AtValueStart(q, ch))
  {
    hide AtValueFirst;
    ValueFirstAlike(p.(state := HeaderValue, index := 0), q.(state := HeaderValue, index := 0), ch);
  }

  lemma ValueFirstAlike(p: Parser, q: Parser, ch: char)
    requires Alike(p.(state := HeaderValueStart), q.(state := HeaderValueStart))
    requires p.state.HeaderValue? && q.state.HeaderValue? && p.index == q.index == 0
    ensures AlikeEffects(p, q, AtValueFirst(p, ch), AtValueFirst(q, ch))
  {
    hide Alike, AlikeEffects, AtValueFirst;
    StateAlike(p.(state := HeaderValueStart), q.(state := HeaderValueStart));
    if p.headerState.ContentLength? { FirstDigitsAlike(p, q, ch); }
    else if p.headerState.Connection? || p.headerState.TransferEncoding? { FirstLetterAlike(p, q, ch); }
    else { FirstOtherAlike(p, q, ch); }
  }

  lemma FirstDigitsAlike(p: Parser, q: Parser, ch: char)
    requires Alike(p.(state := HeaderValueStart), q.(state := HeaderValueStart))
    requires p.state.HeaderValue? && q.state.HeaderValue? && p.index == q.index == 0
    requires p.headerState.ContentLength?
    ensures AlikeEffects(p, q, AtValueFirst(p, ch), AtValueFirst(q, ch))
  {
  }

  lemma FirstLetterAlike(p: Parser, q: Parser, ch: char)
    requires Alike(p.(state := HeaderValueStart), q.(state := HeaderValueStart))
    requires p.state.HeaderValue? && q.state.HeaderValue? && p.index == q.index == 0
    requires p.headerState.Connection? || p.headerState.TransferEncoding?
    ensures AlikeEffects(p, q, AtValueFirst(p, ch), AtValueFirst(q, ch))
  {
    hide Lower;
  }

  lemma FirstOtherAlike(p: Parser, q: Parser, ch: char)
    requires Alike(p.(state := HeaderValueStart), q.(state := HeaderValueStart))
    requires p.state.HeaderValue? && q.state.HeaderValue? && p.index == q.index == 0
    requires !p.headerState.ContentLength? && !p.headerState.Connection? && !p.headerState.TransferEncoding?
    ensures AlikeEffects(p, q, AtValueFirst(p, ch), AtValueFirst(q, ch))
  {
    hide Lower;
  }

  lemma ValueAlike(p: Parser, q: Parser, ch: char)
    requires Alike(p, q) && p.state.HeaderValue?
    ensures AlikeEffects(p, q, AtValue(p, ch), AtValue(q, ch))
  {
    hide ValueMatch, PushDigit;
    var i := if ValueCounts(p.headerState) then p.index + 1 else p.index;
    var j := if ValueCounts(p.headerState) then q.index + 1 else q.index;
    ValueMatchStale(p.headerState, i, j, ch);
  }

  lemma ValueMatchStale(h: HeaderState, i: nat, j: nat, ch: char)
    requires ValueCounts(h) ==> i == j
    ensures ValueMatch(h, i, ch) == ValueMatch(h, j, ch)
    ensures ValueCounts(ValueMatch(h, i, ch)) ==> ValueCounts(h)
  {
  }

  lemma EmptyLineAlike(p: Parser, q: Parser, ch: char)
    requires Alike(p, q) && p.state.HeadersAlmostDone?
    ensures AlikeEffects(p, q, AtHeadersAlmostDone(p, ch), AtHeadersAlmostDone(q, ch))
  {
  }

  lemma HeadersEndAlike(p: Parser, q: Parser, ch: char)
    requires Alike(p, q) && p.state.HeadersDone?
    ensures AlikeEffects(p, q, AtHeadersDone(p, ch), AtHeadersDone(q, ch))
  {
  }

  // The body.

  lemma BodyAlike(p: Parser, q: Parser, ch: char)
    requires Alike(p, q) && InBody(p.state)
    ensures AlikeEffects(p, q, BodyPart(p, ch), BodyPart(q, ch))
  {
    hide Alike, AlikeEffects, AtBodyIdentity, AtChunkSizeStart, AtChunkSize, AtChunkSizeAlmostDone, AtChunkData,
         AtChunkDataDone, EndMessage, Expect;
    StateAlike(p, q);
    if p.state.ChunkDataAlmostDone? { DataEndAlike(p, q, ch); }
    else if p.state.ChunkSizeStart? { SizeStartAlike(p, q, ch); }
    else if p.state.ChunkSize? { SizeAlike(p, q, ch); }
    else if p.state.BodyIdentity? { IdentityAlike(p, q, ch); }
    else if p.state.ChunkData? { DataAlike(p, q, ch); }
    else if p.state.MessageDone? { DoneAlike(p, q); }
    else if p.state.ChunkParameters? { ParametersAlike(p, q); }
    else if p.state.ChunkSizeAlmostDone? { SizeEndAlike(p, q, ch); }
    else { DataDoneAlike(p, q, ch); }
  }

  lemma ParametersAlike(p: Parser, q: Parser)
    requires Alike(p, q) && p.state.ChunkParameters?
    ensures AlikeEffects(p, q, Move(p), Move(q))
    ensures AlikeEffects(p, q, Move(p.(state := ChunkSizeAlmostDone)), Move(q.(state := ChunkSizeAlmostDone)))
  {
  }

  lemma SizeEndAlike(p: Parser, q: Parser, ch: char)
    requires Alike(p, q) && p.state.ChunkSizeAlmostDone?
    ensures AlikeEffects(p, q, AtChunkSizeAlmostDone(p, ch), AtChunkSizeAlmostDone(q, ch))
  {
  }

  lemma DataDoneAlike(p: Parser, q: Parser, ch: char)
    requires Alike(p, q) && p.state.ChunkDataDone?
    ensures AlikeEffects(p, q, AtChunkDataDone(p, ch), AtChunkDataDone(q, ch))
  {
  }

  lemma SizeAlike(p: Parser, q: Parser, ch: char)
    requires Alike(p, q) && p.state.ChunkSize?
    ensures AlikeEffects(p, q, AtChunkSize(p, ch), AtChunkSize(q, ch))
  {
    hide PushDigit, Unhex;
  }

  lemma SizeStartAlike(p: Parser, q: Parser, ch: char)
    requires Alike(p, q) && p.state.ChunkSizeStart?
    ensures AlikeEffects(p, q, AtChunkSizeStart(p, ch), AtChunkSizeStart(q, ch))
  {
    hide Unhex;
  }

  lemma IdentityAlike(p: Parser, q: Parser, ch: char)
    requires Alike(p, q) && p.state.BodyIdentity?
    ensures AlikeEffects(p, q, AtBodyIdentity(p, ch), AtBodyIdentity(q, ch))
  {
  }

  lemma DataAlike(p: Parser, q: Parser, ch: char)
    requires Alike(p, q) && p.state.ChunkData?
    ensures AlikeEffects(p, q, AtChunkData(p, ch), AtChunkData(q, ch))
  {
  }

  lemma DataEndAlike(p: Parser, q: Parser, ch: char)
    requires Alike(p, q) && p.state.ChunkDataAlmostDone?
    ensures AlikeEffects(p, q, Expect(p, ch == CR, ChunkDataDone), Expect(q, ch == CR, ChunkDataDone))
  {
  }

  lemma DoneAlike(p: Parser, q: Parser)
    requires Alike(p, q) && p.state.MessageDone?
    ensures AlikeEffects(p, q, EndMessage(p), EndMessage(q))
  {
  }

  lemma {:induction false} SettleAlike(p: Parser, q: Parser, ch: char)
    requires Alike(p, q)
    ensures AlikeEffects(p, q, Settle(p, ch), Settle(q, ch))
    decreases Rank(p.state)
  {
    MicroAlike(p, q, ch);
    hide Micro;
    if Micro(p, ch).next.Reexecute? { SettleAlike(Micro(p, ch).p, Micro(q, ch).p, ch); }
  }

  lemma StepAlike(p: Parser, q: Parser, ch: char)
    requires Alike(p, q) && (Overflows(p) ==> Overflows(q))
    ensures AlikeEffects(p, q, Step(p, ch), Step(q, ch))
  {
    hide Settle;
    if !Overflows(p) { SettleAlike(Count(p), Count(q), ch); }
  }

  /** How the run of a parser with stale fields compares with the run of a fresh one: the same, byte
      for byte and event for event, or cut short by the header limit, at a byte before which the
      fresh parser's own count, with what the other was ahead, has used up the limit. */
  ghost predicate SameRun(p: Parser, q: Parser, held: nat, data: string) {
    var r, s := Run(p, held, data), Run(q, held, data);
    || (r.used == s.used && r.out == s.out && r.held == s.held && r.end == s.end && r.p.errno == s.p.errno
        && (!r.end.Error? ==> Alike(r.p, s.p)))
    || (r.end.Error? && r.p.errno == HeaderOverflow && r.out <= s.out && r.used <= s.used
        && p.nread > q.nread && Run(q, held, data[..r.used]).end.Advance?
        && Run(q, held, data[..r.used]).p.nread + (p.nread - q.nread) >= HTTP_MAX_HEADER_SIZE)
  }

  lemma {:induction false} RunAlike(p: Parser, q: Parser, held: nat, data: string)
    requires Alike(p, q)
    ensures SameRun(p, q, held, data)
    decreases |data|
  {
    hide Step, Alike;
    StateAlike(p, q);
    if data != "" {
      var ch := data[0];
      if Overflows(p) && !Overflows(q) {
        OverflowStep(p, ch);
        assert Run(q, held, data[..0]) == Result(q, 0, [], held, Advance);
      } else {
        StepAlike(p, q, ch);
        var m, n := Step(p, ch), Step(q, ch);
        if m.next.Advance? {
          StateAlike(m.p, n.p);
          assert Hold(held, m) == Hold(held, n);
          RunAlike(m.p, n.p, Hold(held, m), data[1..]);
          SameRunAfter(p, q, held, data);
        }
      }
    }
  }

  /** One equal byte before runs that compare. */
  lemma SameRunAfter(p: Parser, q: Parser, held: nat, data: string)
    requires data != ""
    requires var m, n := Step(p, data[0]), Step(q, data[0]);
             && m.next.Advance? && n.next.Advance? && m.out == n.out && Hold(held, m) == Hold(held, n)
             && p.nread >= q.nread && m.p.nread >= n.p.nread
             && (m.p.nread == n.p.nread || m.p.nread - n.p.nread == p.nread - q.nread)
             && SameRun(m.p, n.p, Hold(held, m), data[1..])
    ensures SameRun(p, q, held, data)
  {
    hide Step, Alike, Hold;
    var m, n := Step(p, data[0]), Step(q, data[0]);
    var h := Hold(held, m);
    var x, y := Run(m.p, h, data[1..]), Run(n.p, h, data[1..]);
    assert x.out <= y.out ==> m.out + x.out <= m.out + y.out;
    var k := x.used + 1;
    assert data[..k][0] == data[0] && data[..k][1..] == data[1..][..x.used];
    assert Run(q, held, data[..k]).p == Run(n.p, h, data[1..][..x.used]).p;
    assert Run(q, held, data[..k]).end == Run(n.p, h, data[1..][..x.used]).end;
  }

  lemma OverflowStep(p: Parser, ch: char)
    requires Overflows(p)
    ensures Step(p, ch) == Stop(Count(p), HeaderOverflow)
  {
  }

  /** Whatever was parsed before, a parser that waits for a new message is as good as new, but for its
      header count. */
  lemma FreshStart(p: Parser, k: nat)
    requires p.state.StartReq? && p.errno.Ok? && k <= p.nread
    ensures Alike(p, INITIAL.(nread := k))
  {
  }

  /** Pipelining: if the stretch a ends at a message boundary of a connection that stays open, the
      events of a + b are the events of a followed by those of b parsed from a fresh parser, unless
      the header bytes that a left over push b past the header limit. */
  lemma Pipelining(p: Parser, a: string, b: string)
    requires var r := Run(p, 0, a); r.end.Advance? && r.p.state.StartReq? && r.p.errno.Ok?
    ensures var r := Run(p, 0, a); var ab := Run(p, 0, a + b); var anew := Run(INITIAL, 0, b);
            || (ab.out == r.out + anew.out && ab.used == |a| + anew.used && ab.end == anew.end
                && ab.p.errno == anew.p.errno && (!ab.end.Error? ==> Alike(ab.p, anew.p)))
            || (ab.end.Error? && ab.p.errno == HeaderOverflow && ab.out <= r.out + anew.out && r.p.nread > 0
                && |a| <= ab.used <= |a + b| && Run(INITIAL, 0, b[..ab.used - |a|]).end.Advance?
                && Run(INITIAL, 0, b[..ab.used - |a|]).p.nread + r.p.nread >= HTTP_MAX_HEADER_SIZE)
  {
    hide Run, Alike;
    var r := Run(p, 0, a);
    UnmarkedHoldsNothing(p, 0, a);
    RunConcat(p, 0, a, b);
    FreshStart(r.p, 0);
    RunAlike(r.p, INITIAL, 0, b);
  }

  /** A simple bound: a left-over count of k leaves room for any message of 80 KiB - k bytes. */
  lemma {:induction false} CountGrowsByBytes(p: Parser, held: nat, data: string)
    ensures Run(p, held, data).end.Advance? ==> Run(p, held, data).p.nread <= p.nread + |data|
    decreases |data|
  {
    if data != "" {
      StepCountsOne(p, data[0]);
      hide Step;
      var m := Step(p, data[0]);
      if m.next.Advance? { CountGrowsByBytes(m.p, Hold(held, m), data[1..]); }
    }
  }

  /** In particular whenever the left-over count and the bytes of b together stay within the limit. */
  lemma PipeliningWithinLimit(p: Parser, a: string, b: string)
    requires var r := Run(p, 0, a); r.end.Advance? && r.p.state.StartReq? && r.p.errno.Ok?
                                    && (r.p.nread == 0 || r.p.nread + |b| < HTTP_MAX_HEADER_SIZE)
    ensures var r := Run(p, 0, a); var ab := Run(p, 0, a + b); var anew := Run(INITIAL, 0, b);
            ab.out == r.out + anew.out && ab.used == |a| + anew.used && ab.end == anew.end
            && ab.p.errno == anew.p.errno && (!ab.end.Error? ==> Alike(ab.p, anew.p))
  {
    hide Run, Alike;
    Pipelining(p, a, b);
    var k := Run(p, 0, a + b).used - |a|;
    if 0 <= k <= |b| { CountGrowsByBytes(INITIAL, 0, b[..k]); }
  }

  /** A left-over count changes nothing while it and the bytes stay within the limit together. */
  lemma CountWithinLimit(k: nat, data: string)
    requires k == 0 || k + |data| < HTTP_MAX_HEADER_SIZE
    ensures Delivered(Run(INITIAL.(nread := k), 0, data)) == Delivered(Run(INITIAL, 0, data))
  {
    hide Run, Alike;
    var p := INITIAL.(nread := k);
    FreshStart(p, 0);
    RunAlike(p, INITIAL, 0, data);
    var used := Run(p, 0, data).used;
    CountGrowsByBytes(INITIAL, 0, data[..used]);
  }
}
