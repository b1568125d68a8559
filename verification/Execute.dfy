/** The parser as the C code runs it: fields updated in place, marks into the buffer, bulk reads of
    body bytes and jumps back to `reexecute_byte`, proved equal to the per-byte meaning. */
module Execute {
  import opened Chars
  import opened Options
  import opened Parser
  import opened Trace
  import opened Sinks
  import opened Split
  import opened BulkReads
  import opened Invariant

  /** Bytes p..p1 were read as the per-byte meaning reads them, and the sink shows their atoms. */
  ghost predicate Reads(q: Parser, k: Sink, p: nat, data: string, q1: Parser, k1: Sink, p1: nat)
    requires p <= p1 <= |data| && k.Before(p)
  {
    var r := Run(q, k.Pending(p), data[p..p1]);
    && r.end.Advance? && q1 == r.p
    && k1.Before(p1) && k1.Fits(q1.state)
    && k1.Shown(data, p1) == k.Shown(data, p) + r.out && k1.Pending(p1) == r.held
  }

  /** The bulk reads, byte by byte. */
  lemma ReadsBody(q: Parser, k: Sink, p: nat, data: string, p1: nat)
    requires Bulk(q.state) && p < p1 <= |data| && p1 - p <= q.contentLength
    requires k.Before(p) && k.Fits(q.state)
    ensures var left := q.contentLength - (p1 - p); var k1 := k.Mark(Body, p);
            if left > 0 then Reads(q, k, p, data, q.(contentLength := left), k1, p1)
            else if q.state.ChunkData? then
              Reads(q, k, p, data, q.(contentLength := 0, state := ChunkDataAlmostDone), k1, p1)
            else
              Reads(q, k, p, data, q.(contentLength := 0, state := NewMessage(q)),
                    k1.Deliver(Body, p1).Tell(Complete), p1)
  {
    hide InOrder, Atoms, Run, Reads;
    var left := q.contentLength - (p1 - p);
    if left > 0 {
      BodyRun(q, k.Pending(p), data[p..p1]);
      BodyShows(q, k, p, data, p1, q.(contentLength := left));
    } else if q.state.ChunkData? {
      ChunkRun(q, k.Pending(p), data[p..p1]);
      BodyShows(q, k, p, data, p1, q.(contentLength := 0, state := ChunkDataAlmostDone));
    } else {
      IdentityRun(q, k.Pending(p), data[p..p1]);
      BodyEnds(q, k, p, data, p1, q.(contentLength := 0, state := NewMessage(q)));
    }
  }

  lemma MarkShows(k: Sink, p: nat, data: string, p1: nat)
    requires p < p1 <= |data| && k.Before(p) && k.Only(Body)
    ensures var k1 := k.Mark(Body, p);
            && k1.Before(p1) && k1.Shown(data, p1) == k.Shown(data, p) + Bytes(Body, data[p..p1])
            && k1.Pending(p1) == k.Pending(p) + (p1 - p)
  {
    hide InOrder, Atoms;
    var at := k.Mark(Body, p).mark.value.at;
    assert Bytes(Body, data[at..p1]) == Bytes(Body, data[at..p]) + Bytes(Body, data[p..p1]);
    assert Bytes(Body, data[p..p]) == [];
  }

  lemma BodyShows(q: Parser, k: Sink, p: nat, data: string, p1: nat, q1: Parser)
    requires Bulk(q.state) && p < p1 <= |data| && k.Before(p) && k.Fits(q.state)
    requires Bulk(q1.state) || q1.state.ChunkDataAlmostDone?
    requires Run(q, k.Pending(p), data[p..p1]) ==
             Result(q1, p1 - p, Bytes(Body, data[p..p1]), k.Pending(p) + (p1 - p), Advance)
    ensures Reads(q, k, p, data, q1, k.Mark(Body, p), p1)
  {
    hide InOrder, Atoms, Run;
    MarkShows(k, p, data, p1);
  }

  lemma BodyEnds(q: Parser, k: Sink, p: nat, data: string, p1: nat, q1: Parser)
    requires Bulk(q.state) && p < p1 <= |data| && k.Before(p) && k.Fits(q.state)
    requires q1.state.StartReq? || q1.state.Dead?
    requires Run(q, k.Pending(p), data[p..p1]) ==
             Result(q1, p1 - p, Bytes(Body, data[p..p1]) + [Complete], 0, Advance)
    ensures Reads(q, k, p, data, q1, k.Mark(Body, p).Deliver(Body, p1).Tell(Complete), p1)
  {
    hide InOrder, Atoms, Run;
    MarkShows(k, p, data, p1);
    var k1 := k.Mark(Body, p);
    AtomsData(data, k1.log, Body, k1.mark.value.at, p1);
    AtomsNotify(data, k1.Deliver(Body, p1).log, Complete, p1);
    InOrderWidens(k1.log, k1.mark.value.at, |data|);
  }

  /** The byte at p was read with effect m, and the sink shows its atoms. */
  ghost predicate Gained(m: Effect, k: Sink, p: nat, data: string, k1: Sink)
    requires p < |data| && k.Before(p)
  {
    && k1.Before(p + 1) && k1.Fits(m.p.state)
    && k1.Shown(data, p + 1) == k.Shown(data, p) + m.out && k1.Pending(p + 1) == Hold(k.Pending(p), m)
  }

  /** One pass through the switch shows the atoms it assigns. */
  lemma MicroShows(q: Parser, k: Sink, p: nat, data: string)
    requires !Bulk(q.state) && p < |data| && k.Before(p) && k.Fits(q.state)
    requires !Micro(q, data[p]).next.Error?
    ensures var m := Micro(q, data[p]); var k1 := Apply(k, TouchOf(q.state, m), p);
            if m.next.Reexecute? then
              k1.Before(p) && k1.mark.None? && MarkOf(m.p.state).None? && k1.Shown(data, p) == k.Shown(data, p) + m.out
            else Gained(m, k, p, data, k1)
  {
    hide InOrder, Atoms, Micro;
    var m := Micro(q, data[p]);
    MicroTouches(q, data[p]);
    ApplyShows(k, TouchOf(q.state, m), data, p, if m.next.Reexecute? then p else p + 1);
  }

  /** After a jump back on a line feed the byte is never refused. */
  lemma LineFeedSettles(q: Parser)
    requires q.state.HeaderAlmostDone? || q.state.HeadersAlmostDone? || q.state.HeadersDone?
    ensures var m := Settle(q, LF);
            !m.next.Error? && (q.state.HeaderAlmostDone? ==> m.p.state.HeaderValueLws?)
    decreases Rank(q.state)
  {
    if q.state.HeadersAlmostDone? && !q.flags.trailing { LineFeedSettles(Micro(q, LF).p); }
  }

  /** Which jumps back there are outside the body. */
  lemma JumpsBack(q: Parser, ch: char)
    requires !Bulk(q.state) && Micro(q, ch).next.Reexecute?
    ensures var s := Micro(q, ch).p.state;
            || (q.state.HeaderValue? && ch == LF && s.HeaderAlmostDone?)
            || (q.state.HeaderFieldStart? && ch == LF && s.HeadersAlmostDone?)
            || (q.state.HeadersAlmostDone? && ch == LF && s.HeadersDone?)
            || (q.state.HeaderValueLws? && s.HeaderFieldStart?)
    ensures Micro(q, ch).out == [] || (q.state.HeadersAlmostDone? && Micro(q, ch).out == [HeadersComplete])
  {
  }

  lemma {:induction false} SettleShows(q: Parser, k: Sink, p: nat, data: string)
    requires Sound(q, 1) && !Bulk(q.state) && p < |data| && k.Before(p) && k.Fits(q.state)
    ensures var m := Settle(q, data[p]); var k1 := SettleSink(q, data[p], k, p);
            if m.next.Error? then k1.log == k.log && m.out == [] else Gained(m, k, p, data, k1)
    decreases Rank(q.state)
  {
    hide InOrder, Atoms, Micro, TouchOf, Apply, Sound;
    var ch := data[p];
    var m := Micro(q, ch);
    MicroKeepsSound(q, ch);
    if !m.next.Error? { MicroShows(q, k, p, data); }
    if m.next.Reexecute? {
      JumpsBack(q, ch);
      var k1 := Apply(k, TouchOf(q.state, m), p);
      SettleShows(m.p, k1, p, data);
      var rest := Settle(m.p, ch);
      if q.state.HeaderValueLws? {
        LwsKeeps(q, ch, k, p);
      } else {
        LineFeedSettles(m.p);
        assert k1.Shown(data, p) + rest.out == k.Shown(data, p) + (m.out + rest.out);
      }
    }
  }

  lemma LwsKeeps(q: Parser, ch: char, k: Sink, p: nat)
    requires q.state.HeaderValueLws?
    ensures Apply(k, TouchOf(q.state, Micro(q, ch)), p) == k
  {
  }

  /** What a case of the switch must do for the byte at p, when the byte's effect in state s is m. */
  ghost predicate Does(m: Effect, s: State, k: Sink, p: nat, q1: Parser, next: Next, k1: Sink) {
    && q1 == m.p && next == m.next
    && if m.next.Error? then k1.log == k.log else k1 == Apply(k, TouchOf(s, m), p)
  }

  class HttpParser {
    var state: State
    var headerState: HeaderState
    var index: nat
    var nread: nat
    var contentLength: nat
    var httpMajor: nat
    var httpMinor: nat
    var verb: Method
    var flags: Flags
    var upgrade: bool
    var errno: Errno

    function Snap(): Parser
      reads this
    {
      Parser(state, headerState, index, nread, contentLength, httpMajor, httpMinor, verb, flags, upgrade, errno)
    }

    constructor ()
      ensures Snap() == INITIAL
    {
      new;
      Init();
    }

    /** `http_parser_init` for HTTP_REQUEST: whatever was parsed before is forgotten. */
    method Init()
      modifies this
      ensures Snap() == INITIAL
    {
      state, headerState, index, nread, contentLength := StartReq, General, 0, 0, 0;
      httpMajor, httpMinor, verb, flags, upgrade, errno := 0, 0, DELETE, NO_FLAGS, false, Ok;
    }

    method Fail(e: Errno) returns (next: Next)
      modifies this`errno
      ensures errno == e && next == Error
    {
      errno := e;
      next := Error;
    }

    method OnStart(ch: char, k: Sink, p: nat) returns (next: Next, k1: Sink)
      requires state.StartReq? && k.Fits(state)
      modifies this
      ensures Does(AtStartReq(old(Snap()), ch), old(state), k, p, Snap(), next, k1)
    {
      hide MarkOf;
      RequestMarks();
      hide FirstCandidate, IsAlpha;
      next, k1 := Advance, k;
      if ch == CR || ch == LF { return; }
      flags, contentLength := NO_FLAGS, ULLONG_MAX;
      if !IsAlpha(ch) { next := Fail(InvalidMethod); return; }
      verb, index := DELETE, 1;
      var candidate := FirstCandidate(ch);
      if candidate.None? { next := Fail(InvalidMethod); return; }
      verb := candidate.value;
      state := ReqMethod;
      k1 := k.Tell(Begin);
    }

    method OnMethod(ch: char, k: Sink, p: nat) returns (next: Next, k1: Sink)
      requires state.ReqMethod? && k.Fits(state)
      modifies this
      ensures Does(AtReqMethod(old(Snap()), ch), old(state), k, p, Snap(), next, k1)
    {
      hide MarkOf;
      RequestMarks();
      hide Spelling, NextCandidate;
      next, k1 := Advance, k;
      var matcher := Spelling(verb);
      if ch == '\0' { next := Fail(InvalidMethod); return; }
      if ch == ' ' && CharAt(matcher, index) == '\0' {
        state := ReqSpacesBeforeUrl;
      } else if ch != CharAt(matcher, index) {
        var candidate := NextCandidate(verb, index, ch);
        if candidate.None? { next := Fail(InvalidMethod); return; }
        verb := candidate.value;
      }
      index := index + 1;
    }

    method OnSpaces(ch: char, k: Sink, p: nat) returns (next: Next, k1: Sink)
      requires state.ReqSpacesBeforeUrl? && k.Fits(state)
      modifies this
      ensures Does(AtReqSpaces(old(Snap()), ch), old(state), k, p, Snap(), next, k1)
    {
      hide MarkOf;
      RequestMarks();
      UrlMark(ParseUrlChar(ReqServerStart, ch));
      UrlMark(ParseUrlChar(ReqSpacesBeforeUrl, ch));
      next, k1 := Advance, k;
      if ch == ' ' { return; }
      k1 := k.Mark(Url, p);
      if verb.CONNECT? { state := ReqServerStart; }
      assert state.ReqSpacesBeforeUrl? || state.ReqServerStart?;
      UrlCharStates(state, ch);
      hide ParseUrlChar;
      state := ParseUrlChar(state, ch);
      if state.Dead? { next := Fail(InvalidUrl); }
    }

    method OnUrl(ch: char, k: Sink, p: nat) returns (next: Next, k1: Sink)
      requires (UrlPrefix(state) || UrlRest(state)) && k.Fits(state) && k.Reaches(p)
      modifies this
      ensures Does(InUrl(old(Snap()), ch), old(state), k, p, Snap(), next, k1)
    {
      hide MarkOf;
      RequestMarks();
      UrlMark(state);
      UrlMark(ParseUrlChar(state, ch));
      hide ParseUrlChar;
      next, k1 := Advance, k;
      if ch == ' ' || ch == CR || ch == LF {
        if UrlPrefix(state) { next := Fail(InvalidUrl); return; }
        if ch == ' ' {
          state := ReqHttpStart;
        } else {
          httpMajor, httpMinor := 0, 9;
          state := if ch == CR then ReqLineAlmostDone else HeaderFieldStart;
        }
        k1 := k.Deliver(Url, p);
      } else {
        UrlCharStates(state, ch);
        state := ParseUrlChar(state, ch);
        if state.Dead? { next := Fail(InvalidUrl); }
      }
    }

    method Expects(ok: bool, s: State) returns (next: Next)
      modifies this`state, this`errno
      ensures Snap() == Expect(old(Snap()), ok, s).p && next == Expect(old(Snap()), ok, s).next
    {
      next := Advance;
      if ok { state := s; } else { next := Fail(Strict); }
    }

    method OnHttpStart(ch: char, k: Sink, p: nat) returns (next: Next, k1: Sink)
      requires state.ReqHttpStart? && k.Fits(state)
      modifies this
      ensures Does(AtHttpStart(old(Snap()), ch), old(state), k, p, Snap(), next, k1)
    {
      hide MarkOf;
      VersionMarks();
      next, k1 := Advance, k;
      if ch == 'H' { state := ReqHttpH; } else if ch != ' ' { next := Fail(InvalidConstant); }
    }

    /** One of the letters "TTP/". */
    method OnHttp(ch: char, k: Sink, p: nat) returns (next: Next, k1: Sink)
      requires InHttp(state)
      modifies this`state, this`errno
      ensures Does(AtHttp(old(Snap()), ch), old(state), k, p, Snap(), next, k1)
    {
      hide MarkOf;
      VersionMarks();
      k1 := k;
      DoesHttp(Snap(), ch, k, p);
      hide Does;
      if state.ReqHttpH? { next := Expects(ch == 'T', ReqHttpHT); }
      else if state.ReqHttpHT? { next := Expects(ch == 'T', ReqHttpHTT); }
      else if state.ReqHttpHTT? { next := Expects(ch == 'P', ReqHttpHTTP); }
      else { next := Expects(ch == '/', ReqFirstHttpMajor); }
    }

    method OnFirstMajor(ch: char, k: Sink, p: nat) returns (next: Next, k1: Sink)
      requires state.ReqFirstHttpMajor? && k.Fits(state)
      modifies this
      ensures Does(AtFirstMajor(old(Snap()), ch), old(state), k, p, Snap(), next, k1)
    {
      hide MarkOf;
      VersionMarks();
      next, k1 := Advance, k;
      if ch < '1' || ch > '9' { next := Fail(InvalidVersion); return; }
      httpMajor := Digit(ch);
      state := ReqHttpMajor;
    }

    method OnFirstMinor(ch: char, k: Sink, p: nat) returns (next: Next, k1: Sink)
      requires state.ReqFirstHttpMinor? && k.Fits(state)
      modifies this
      ensures Does(AtFirstMinor(old(Snap()), ch), old(state), k, p, Snap(), next, k1)
    {
      hide MarkOf;
      VersionMarks();
      next, k1 := Advance, k;
      if !IsNum(ch) { next := Fail(InvalidVersion); return; }
      httpMinor := Digit(ch);
      state := ReqHttpMinor;
    }

    method OnLineAlmostDone(ch: char, k: Sink, p: nat) returns (next: Next, k1: Sink)
      requires state.ReqLineAlmostDone? && k.Fits(state)
      modifies this
      ensures Does(AtLineAlmostDone(old(Snap()), ch), old(state), k, p, Snap(), next, k1)
    {
      hide MarkOf;
      VersionMarks();
      next, k1 := Advance, k;
      if ch == LF { state := HeaderFieldStart; } else { next := Fail(LfExpected); }
    }

    method OnMajor(ch: char, k: Sink, p: nat) returns (next: Next, k1: Sink)
      requires state.ReqHttpMajor? && k.Fits(state)
      modifies this
      ensures Does(AtMajor(old(Snap()), ch), old(state), k, p, Snap(), next, k1)
    {
      hide MarkOf;
      VersionMarks();
      next, k1 := Advance, k;
      if ch == '.' { state := ReqFirstHttpMinor; return; }
      if !IsNum(ch) { next := Fail(InvalidVersion); return; }
      httpMajor := httpMajor * 10;
      httpMajor := httpMajor + Digit(ch);
      if httpMajor > 999 { next := Fail(InvalidVersion); }
    }

    method OnMinor(ch: char, k: Sink, p: nat) returns (next: Next, k1: Sink)
      requires state.ReqHttpMinor? && k.Fits(state)
      modifies this
      ensures Does(AtMinor(old(Snap()), ch), old(state), k, p, Snap(), next, k1)
    {
      hide MarkOf;
      VersionMarks();
      next, k1 := Advance, k;
      if ch == CR { state := ReqLineAlmostDone; return; }
      if ch == LF { state := HeaderFieldStart; return; }
      if !IsNum(ch) { next := Fail(InvalidVersion); return; }
      httpMinor := httpMinor * 10;
      httpMinor := httpMinor + Digit(ch);
      if httpMinor > 999 { next := Fail(InvalidVersion); }
    }

    method OnFieldStart(ch: char, k: Sink, p: nat) returns (next: Next, k1: Sink)
      requires state.HeaderFieldStart? && k.Fits(state)
      modifies this
      ensures Does(AtFieldStart(old(Snap()), ch), old(state), k, p, Snap(), next, k1)
    {
      hide MarkOf;
      LineMarks();
      hide FieldStart;
      next, k1 := Advance, k;
      if ch == CR { state := HeadersAlmostDone; return; }
      if ch == LF { state := HeadersAlmostDone; next := Reexecute; return; }
      var c := Token(ch);
      if c == '\0' { next := Fail(InvalidHeaderToken); return; }
      k1 := k.Mark(Name, p);
      index := 0;
      state := HeaderField;
      headerState := FieldStart(c);
    }

    method OnField(ch: char, k: Sink, p: nat) returns (next: Next, k1: Sink)
      requires state.HeaderField? && k.Fits(state) && k.Reaches(p) && Sound(Snap(), 1)
      modifies this
      ensures Does(AtField(old(Snap()), ch), old(state), k, p, Snap(), next, k1)
    {
      hide MarkOf;
      LineMarks();
      hide FieldMatch;
      next, k1 := Advance, k;
      var c := Token(ch);
      if c != '\0' {
        assert headerState.General? || headerState.ContentLength? || headerState.Connection? || headerState.Upgrade?
               || headerState.TransferEncoding? || FieldCounts(headerState);
        if FieldCounts(headerState) { index := index + 1; }
        headerState := FieldMatch(headerState, index, c);
      } else if ch == ':' || ch == CR || ch == LF {
        state := if ch == ':' then HeaderValueStart else if ch == CR then HeaderAlmostDone else HeaderFieldStart;
        k1 := k.Deliver(Name, p);
      } else {
        next := Fail(InvalidHeaderToken);
      }
    }

    method OnValueStart(ch: char, k: Sink, p: nat) returns (next: Next, k1: Sink)
      requires state.HeaderValueStart? && k.Fits(state)
      modifies this
      ensures Does(AtValueStart(old(Snap()), ch), old(state), k, p, Snap(), next, k1)
    {
      hide MarkOf;
      LineMarks();
      hide AtValueFirst;
      next, k1 := Advance, k;
      if ch == ' ' || ch == '\t' { return; }
      k1 := k.Mark(Value, p);
      state := HeaderValue;
      index := 0;
      if ch == CR {
        headerState := General;
        state := HeaderAlmostDone;
        k1 := k1.Deliver(Value, p);
        return;
      }
      if ch == LF {
        state := HeaderFieldStart;
        k1 := k1.Deliver(Value, p);
        return;
      }
      ValueFirstStaysInside(Snap(), ch);
      next := OnValueFirst(ch);
    }

    method OnValueFirst(ch: char) returns (next: Next)
      modifies this`flags, this`headerState, this`contentLength, this`errno
      ensures Snap() == AtValueFirst(old(Snap()), ch).p && next == AtValueFirst(old(Snap()), ch).next
    {
      next := Advance;
      match headerState
      case Upgrade =>
        flags := flags.(upgrade := true);
        headerState := General;
      case TransferEncoding =>
        headerState := if Lower(ch) == 'c' then MatchingChunked else General;
      case ContentLength =>
        if !IsNum(ch) { next := Fail(InvalidContentLength); return; }
        contentLength := Digit(ch);
      case Connection =>
        headerState := if Lower(ch) == 'k' then MatchingKeepAlive
                       else if Lower(ch) == 'c' then MatchingClose else General;
      case _ =>
        headerState := General;
    }

    method OnValue(ch: char, k: Sink, p: nat) returns (next: Next, k1: Sink)
      requires state.HeaderValue? && k.Fits(state) && k.Reaches(p) && Sound(Snap(), 1)
      modifies this
      ensures Does(AtValue(old(Snap()), ch), old(state), k, p, Snap(), next, k1)
    {
      hide MarkOf;
      LineMarks();
      hide ValueMatch, PushDigit;
      next, k1 := Advance, k;
      if ch == CR {
        state := HeaderAlmostDone;
        k1 := k.Deliver(Value, p);
      } else if ch == LF {
        state := HeaderAlmostDone;
        k1 := k.Deliver(Value, p);
        next := Reexecute;
      } else if headerState.ContentLength? {
        if ch == ' ' { return; }
        if !IsNum(ch) { next := Fail(InvalidContentLength); return; }
        var t := PushDigit(contentLength, 10, Digit(ch));
        if t.None? { next := Fail(InvalidContentLength); return; }
        contentLength := t.value;
      } else {
        assert !headerState.Connection? && !headerState.TransferEncoding?;
        if ValueCounts(headerState) { index := index + 1; }
        headerState := ValueMatch(headerState, index, ch);
      }
    }

    method OnAlmostDone(ch: char, k: Sink, p: nat) returns (next: Next, k1: Sink)
      requires state.HeaderAlmostDone? && k.Fits(state)
      modifies this
      ensures Does(AtAlmostDone(old(Snap()), ch), old(state), k, p, Snap(), next, k1)
    {
      hide MarkOf;
      LineMarks();
      hide LineFlags;
      next, k1 := Advance, k;
      if ch != LF { next := Fail(Strict); return; }
      state := HeaderValueLws;
      flags := LineFlags(flags, headerState);
    }

    method OnLws(ch: char, k: Sink, p: nat) returns (next: Next, k1: Sink)
      requires state.HeaderValueLws? && k.Fits(state)
      modifies this
      ensures Does(AtLws(old(Snap()), ch), old(state), k, p, Snap(), next, k1)
    {
      hide MarkOf;
      LineMarks();
      next, k1 := Advance, k;
      if ch == ' ' || ch == '\t' {
        state := HeaderValueStart;
      } else {
        state := HeaderFieldStart;
        next := Reexecute;
      }
    }

    method OnHeadersAlmostDone(ch: char, k: Sink, p: nat) returns (next: Next, k1: Sink)
      requires state.HeadersAlmostDone? && k.Fits(state)
      modifies this
      ensures Does(AtHeadersAlmostDone(old(Snap()), ch), old(state), k, p, Snap(), next, k1)
    {
      hide MarkOf;
      LineMarks();
      BodyMarks();
      hide NewMessage;
      next, k1 := Advance, k;
      if ch != LF { next := Fail(Strict); return; }
      if flags.trailing {
        state := NewMessage(Snap());
        k1 := k.Tell(Complete);
        return;
      }
      state := HeadersDone;
      upgrade := flags.upgrade || verb.CONNECT?;
      k1 := k.Tell(HeadersComplete);
      next := Reexecute;
    }

    method OnHeadersDone(ch: char, k: Sink, p: nat) returns (next: Next, k1: Sink)
      requires state.HeadersDone? && k.Fits(state)
      modifies this
      ensures Does(AtHeadersDone(old(Snap()), ch), old(state), k, p, Snap(), next, k1)
    {
      hide MarkOf;
      BodyMarks();
      LineMarks();
      hide NewMessage;
      next, k1 := Advance, k;
      if ch != LF { next := Fail(Strict); return; }
      nread := 0;
      if upgrade {
        state := NewMessage(Snap());
        k1 := k.Tell(Complete);
        next := Leave;
      } else if flags.chunked {
        state := ChunkSizeStart;
      } else if contentLength == 0 || contentLength == ULLONG_MAX {
        state := NewMessage(Snap());
        k1 := k.Tell(Complete);
      } else {
        state := BodyIdentity;
      }
    }

    method OnChunkSizeStart(ch: char, k: Sink, p: nat) returns (next: Next, k1: Sink)
      requires state.ChunkSizeStart? && k.Fits(state) && Sound(Snap(), 1)
      modifies this
      ensures Does(AtChunkSizeStart(old(Snap()), ch), old(state), k, p, Snap(), next, k1)
    {
      hide MarkOf;
      BodyMarks();
      next, k1 := Advance, k;
      assert nread == 1;
      assert flags.chunked;
      if Unhex(ch) == -1 { next := Fail(InvalidChunkSize); return; }
      contentLength := Unhex(ch);
      state := ChunkSize;
    }

    method OnChunkSize(ch: char, k: Sink, p: nat) returns (next: Next, k1: Sink)
      requires state.ChunkSize? && k.Fits(state) && Sound(Snap(), 1)
      modifies this
      ensures Does(AtChunkSize(old(Snap()), ch), old(state), k, p, Snap(), next, k1)
    {
      hide MarkOf;
      BodyMarks();
      hide PushDigit;
      next, k1 := Advance, k;
      assert flags.chunked;
      if ch == CR { state := ChunkSizeAlmostDone; return; }
      if Unhex(ch) == -1 {
        if ch == ';' || ch == ' ' { state := ChunkParameters; } else { next := Fail(InvalidChunkSize); }
        return;
      }
      var t := PushDigit(contentLength, 16, Unhex(ch));
      if t.None? { next := Fail(InvalidContentLength); return; }
      contentLength := t.value;
    }

    method OnChunkParameters(ch: char, k: Sink) returns (next: Next, k1: Sink)
      requires state.ChunkParameters? && Sound(Snap(), 1)
      modifies this`state
      ensures state == (if ch == CR then ChunkSizeAlmostDone else ChunkParameters) && next == Advance && k1 == k
    {
      next, k1 := Advance, k;
      assert flags.chunked;
      if ch == CR { state := ChunkSizeAlmostDone; }
    }

    method OnChunkSizeAlmostDone(ch: char, k: Sink, p: nat) returns (next: Next, k1: Sink)
      requires state.ChunkSizeAlmostDone? && k.Fits(state) && Sound(Snap(), 1)
      modifies this
      ensures Does(AtChunkSizeAlmostDone(old(Snap()), ch), old(state), k, p, Snap(), next, k1)
    {
      hide MarkOf;
      BodyMarks();
      next, k1 := Advance, k;
      assert flags.chunked;
      if ch != LF { next := Fail(Strict); return; }
      nread := 0;
      if contentLength == 0 {
        flags := flags.(trailing := true);
        state := HeaderFieldStart;
      } else {
        state := ChunkData;
      }
    }

    method OnChunkDataAlmostDone(ch: char, k: Sink, p: nat) returns (next: Next, k1: Sink)
      requires state.ChunkDataAlmostDone? && k.Fits(state) && k.Reaches(p) && Sound(Snap(), 1)
      modifies this
      ensures Does(Expect(old(Snap()), ch == CR, ChunkDataDone), old(state), k, p, Snap(), next, k1)
    {
      hide MarkOf;
      BodyMarks();
      k1 := k;
      assert flags.chunked;
      assert contentLength == 0;
      next := Expects(ch == CR, ChunkDataDone);
      if next.Advance? { k1 := k.Deliver(Body, p); }
    }

    method OnChunkDataDone(ch: char, k: Sink, p: nat) returns (next: Next, k1: Sink)
      requires state.ChunkDataDone? && k.Fits(state) && Sound(Snap(), 1)
      modifies this
      ensures Does(AtChunkDataDone(old(Snap()), ch), old(state), k, p, Snap(), next, k1)
    {
      hide MarkOf;
      BodyMarks();
      next, k1 := Advance, k;
      assert flags.chunked;
      if ch != LF { next := Fail(Strict); return; }
      nread := 0;
      state := ChunkSizeStart;
    }

    method OnMessageDone(k: Sink) returns (k1: Sink)
      modifies this`state
      ensures Snap() == EndMessage(old(Snap())).p && k1 == k.Tell(Complete)
    {
      state := NewMessage(Snap());
      k1 := k.Tell(Complete);
    }

    method SwitchRequestLine(ch: char, k: Sink, p: nat) returns (next: Next, k1: Sink)
      requires !InHeaderLines(state) && !InBody(state)
      requires k.Fits(state) && k.Reaches(p)
      modifies this
      ensures Does(RequestLine(old(Snap()), ch), old(state), k, p, Snap(), next, k1)
    {
      hide AtStartReq, AtReqMethod, AtReqSpaces, InUrl, AtHttpStart, AtHttp, AtFirstMajor, AtMajor, AtFirstMinor,
           AtMinor, AtLineAlmostDone, Does;
      if state.Dead? {
        next, k1 := Advance, k;
        if ch != CR && ch != LF { next := Fail(ClosedConnection); }
        DoesDead(old(Snap()), ch, k, p);
      } else if state.StartReq? {
        next, k1 := OnStart(ch, k, p);
      } else if state.ReqMethod? {
        next, k1 := OnMethod(ch, k, p);
      } else if state.ReqSpacesBeforeUrl? {
        next, k1 := OnSpaces(ch, k, p);
      } else if state.ReqFirstHttpMajor? {
        next, k1 := OnFirstMajor(ch, k, p);
      } else if state.ReqHttpMajor? {
        next, k1 := OnMajor(ch, k, p);
      } else if state.ReqFirstHttpMinor? {
        next, k1 := OnFirstMinor(ch, k, p);
      } else if state.ReqHttpMinor? {
        next, k1 := OnMinor(ch, k, p);
      } else if state.ReqLineAlmostDone? {
        next, k1 := OnLineAlmostDone(ch, k, p);
      } else if state.ReqHttpStart? {
        next, k1 := OnHttpStart(ch, k, p);
      } else if InHttp(state) {
        next, k1 := OnHttp(ch, k, p);
      } else {
        next, k1 := OnUrl(ch, k, p);
      }
    }

    method SwitchHeaderLines(ch: char, k: Sink, p: nat) returns (next: Next, k1: Sink)
      requires InHeaderLines(state) && Sound(Snap(), 1)
      requires k.Fits(state) && k.Reaches(p)
      modifies this
      ensures Does(HeaderLines(old(Snap()), ch), old(state), k, p, Snap(), next, k1)
    {
      hide AtFieldStart, AtField, AtValueStart, AtValue, AtAlmostDone, AtLws, AtHeadersAlmostDone, AtHeadersDone, Does;
      if state.HeaderField? {
        next, k1 := OnField(ch, k, p);
      } else if state.HeaderValueStart? {
        next, k1 := OnValueStart(ch, k, p);
      } else if state.HeaderValue? {
        next, k1 := OnValue(ch, k, p);
      } else if state.HeaderAlmostDone? {
        next, k1 := OnAlmostDone(ch, k, p);
      } else if state.HeaderValueLws? {
        next, k1 := OnLws(ch, k, p);
      } else if state.HeadersAlmostDone? {
        next, k1 := OnHeadersAlmostDone(ch, k, p);
      } else if state.HeadersDone? {
        next, k1 := OnHeadersDone(ch, k, p);
      } else {
        next, k1 := OnFieldStart(ch, k, p);
      }
    }

    method SwitchBody(ch: char, k: Sink, p: nat) returns (next: Next, k1: Sink)
      requires InBody(state) && !Bulk(state) && Sound(Snap(), 1)
      requires k.Fits(state) && k.Reaches(p)
      modifies this
      ensures Does(BodyPart(old(Snap()), ch), old(state), k, p, Snap(), next, k1)
    {
      hide AtChunkSizeStart, AtChunkSize, AtChunkSizeAlmostDone, AtChunkDataDone, Does;
      if state.ChunkSizeStart? {
        next, k1 := OnChunkSizeStart(ch, k, p);
      } else if state.ChunkSize? {
        next, k1 := OnChunkSize(ch, k, p);
      } else if state.ChunkParameters? {
        next, k1 := OnChunkParameters(ch, k);
        DoesParameters(old(Snap()), ch, k, p);
      } else if state.ChunkSizeAlmostDone? {
        next, k1 := OnChunkSizeAlmostDone(ch, k, p);
      } else if state.ChunkDataAlmostDone? {
        next, k1 := OnChunkDataAlmostDone(ch, k, p);
      } else if state.ChunkDataDone? {
        next, k1 := OnChunkDataDone(ch, k, p);
      } else {
        next := Advance;
        k1 := OnMessageDone(k);
        DoesMessageDone(old(Snap()), ch, k, p);
      }
    }

    /** The switch on `state`, but for the two bulk reads. */
    method Switch(ch: char, k: Sink, p: nat) returns (next: Next, k1: Sink)
      requires !Bulk(state) && Sound(Snap(), 1)
      requires k.Fits(state) && k.Reaches(p)
      modifies this
      ensures Does(Micro(old(Snap()), ch), old(state), k, p, Snap(), next, k1)
    {
      hide RequestLine, HeaderLines, BodyPart, Does;
      if InHeaderLines(state) { next, k1 := SwitchHeaderLines(ch, k, p); }
      else if InBody(state) { next, k1 := SwitchBody(ch, k, p); }
      else { next, k1 := SwitchRequestLine(ch, k, p); }
    }

    /** The case s_body_identity: as many bytes as the buffer and the remaining length allow, and
        the jump to s_message_done after the last of them. */
    method ReadIdentity(data: string, k: Sink, p: nat) returns (p1: nat, k1: Sink)
      requires state.BodyIdentity? && Sound(Snap(), 1)
      requires p < |data| && k.Before(p) && k.Fits(state)
      modifies this
      ensures p < p1 <= |data| && Reads(old(Snap()), k, p, data, Snap(), k1, p1)
    {
      hide InOrder, Atoms, Run;
      assert contentLength != 0 && contentLength != ULLONG_MAX;
      var toRead := if contentLength < |data| - p then contentLength else |data| - p;
      p1 := p + toRead;
      ReadsBody(Snap(), k, p, data, p1);
      k1 := k.Mark(Body, p);
      contentLength := contentLength - toRead;
      if contentLength == 0 {
        state := MessageDone;
        k1 := k1.Deliver(Body, p1);
        k1 := OnMessageDone(k1);
      }
    }

    /** The case s_chunk_data. */
    method ReadChunk(data: string, k: Sink, p: nat) returns (p1: nat, k1: Sink)
      requires state.ChunkData? && Sound(Snap(), 1)
      requires p < |data| && k.Before(p) && k.Fits(state)
      modifies this
      ensures p < p1 <= |data| && Reads(old(Snap()), k, p, data, Snap(), k1, p1)
    {
      hide InOrder, Atoms, Run;
      assert flags.chunked;
      assert contentLength != 0 && contentLength != ULLONG_MAX;
      var toRead := if contentLength < |data| - p then contentLength else |data| - p;
      p1 := p + toRead;
      ReadsBody(Snap(), k, p, data, p1);
      k1 := k.Mark(Body, p);
      contentLength := contentLength - toRead;
      if contentLength == 0 { state := ChunkDataAlmostDone; }
    }

    /** A byte outside the bulk reads, with its jumps back to `reexecute_byte`. */
    method ReadByte(ch: char, k: Sink, p: nat) returns (next: Next, k1: Sink)
      requires !Bulk(state) && !state.MessageDone? && Sound(Snap(), 1)
      requires k.Reaches(p) && k.Fits(state)
      modifies this
      ensures Settles(old(Snap()), ch, k, p, Snap(), next, k1)
    {
      hide Micro, Sound, TouchOf, Apply, MarkOf;
      ghost var q := Snap();
      next, k1 := Reexecute, k;
      while next.Reexecute?
        invariant next.Reexecute? ==>
          && Sound(Snap(), 1) && !Bulk(state) && k1.Reaches(p) && k1.Fits(state)
          && Settle(q, ch).p == Settle(Snap(), ch).p && Settle(q, ch).next == Settle(Snap(), ch).next
          && SettleSink(q, ch, k, p) == SettleSink(Snap(), ch, k1, p)
        invariant !next.Reexecute? ==> Settles(q, ch, k, p, Snap(), next, k1)
        decreases next.Reexecute?, Rank(state)
      {
        ghost var b := Snap();
        ghost var kb := k1;
        next, k1 := Switch(ch, k1, p);
        MicroKeepsSound(b, ch);
        if next.Reexecute? {
          ReexecuteFits(b, ch, kb, p);
          JumpsBack(b, ch);
        }
      }
    }

    /** Between calls the parser either holds an error number or satisfies the invariant. */
    predicate Valid()
      reads this
    {
      errno.Ok? ==> Inv(Snap())
    }

    /** The body of the loop over the buffer. */
    method ReadNext(data: string, k: Sink, n: nat) returns (next: Next, n1: nat, k1: Sink)
      requires Inv(Snap()) && n < |data| && k.Before(n) && k.Fits(state)
      modifies this
      ensures !next.Reexecute?
      ensures next.Advance? ==> n < n1 <= |data| && Reads(old(Snap()), k, n, data, Snap(), k1, n1)
      ensures !next.Advance? ==>
        var m := Step(old(Snap()), data[n]);
        && Snap() == m.p && next == m.next
        && if next.Error? then n1 == n && k1.log == k.log && m.out == []
           else n1 == n + 1 && !Overflows(old(Snap())) && Gained(m, k, n, data, k1)
    {
      hide Atoms, InOrder, Run, MarkOf, Settle, Inv, Sound, Reads, Gained;
      ghost var q := Snap();
      if ParsingHeader(state) {
        nread := nread + 1;
        if nread > HTTP_MAX_HEADER_SIZE {
          errno := HeaderOverflow;
          return Error, n, k;
        }
      }
      StepKeepsInv(q, data[n]);
      BetweenBytes(q);
      if state.BodyIdentity? {
        next := Advance;
        n1, k1 := ReadIdentity(data, k, n);
      } else if state.ChunkData? {
        next := Advance;
        n1, k1 := ReadChunk(data, k, n);
      } else {
        next, k1 := ReadByte(data[n], k, n);
        SettleShows(Count(q), k, n, data);
        n1 := if next.Error? then n else n + 1;
        if next.Advance? { StepReads(q, k, n, data, k1); }
      }
    }

    /** `http_parser_execute`: n is the number of bytes it reports as read, log the callbacks. */
    method Execute(data: string) returns (n: nat, log: seq<Call>)
      requires Valid()
      modifies this
      ensures Valid() && InOrder(log, |data|)
      ensures var r := Invoke(old(Snap()), data);
              Snap() == r.p && n == r.used && Atoms(data, log) == Delivered(r)
    {
      n, log := 0, [];
      InOrderEmpty(|data|);
      if !errno.Ok? { return; }
      if data == "" {
        if !state.Dead? && !state.StartReq? {
          errno := InvalidEofState;
          n := 1;
        }
        return;
      }
      var k := Sink(None, []);
      if state.HeaderField? { k := k.Mark(Name, 0); }
      if state.HeaderValue? { k := k.Mark(Value, 0); }
      if UrlPrefix(state) || UrlRest(state) { k := k.Mark(Url, 0); }
      EntryReads(Snap(), k, data);
      RunKeepsInv(Snap(), 0, data);
      hide Atoms, InOrder, Run, Inv, MarkOf;
      n, log := ReadAll(data, k);
    }

    /** The loop over the buffer, and the callbacks for a mark that is left over. */
    method ReadAll(data: string, entry: Sink) returns (n: nat, log: seq<Call>)
      requires Inv(Snap())
      requires entry.Before(0) && entry.Pending(0) == 0 && entry.Shown(data, 0) == []
      requires Reads(Snap(), entry, 0, data, Snap(), entry, 0)
      modifies this
      ensures InOrder(log, |data|)
      ensures var r := Run(old(Snap()), 0, data);
              Snap() == r.p && n == r.used && Atoms(data, log) == Delivered(r)
    {
      hide Atoms, InOrder, Run, Inv, MarkOf, Step, Settle, Overflows, Gained;
      ghost var q0 := Snap();
      var k := entry;
      n := 0;
      while n < |data|
        invariant 0 <= n <= |data| && Inv(Snap())
        invariant Reads(q0, entry, 0, data, Snap(), k, n)
      {
        ghost var q, kb, nb := Snap(), k, n;
        var next;
        next, n, k := ReadNext(data, k, n);
        if next.Error? {
          StepFails(q0, entry, nb, data, q, kb);
          return n, k.log;
        }
        if next.Leave? {
          StepLeaves(q0, entry, nb, data, q, kb, k);
          return n, k.log;
        }
        ReadsThen(q0, entry, data, q, kb, nb, Snap(), k, n);
        RunKeepsInv(q0, 0, data[0..n]);
      }
      CallEnds(q0, entry, data, Snap(), k);
      // at most one mark is set
      log := if k.mark.Some? then k.Deliver(k.mark.value.field, n).log else k.log;
    }
  }

  lemma BetweenBytes(q: Parser)
    requires Inv(q)
    ensures !q.state.HeadersDone? && !q.state.MessageDone?
  {
  }

  /** The marks set on entry hold nothing yet. */
  lemma EntryReads(q: Parser, k: Sink, data: string)
    requires Inv(q) && k.log == []
    requires k.mark == if TextMark(q.state).Some? then Some(Slot(TextMark(q.state).value, 0)) else None
    ensures k.Before(0) && k.Pending(0) == 0 && k.Shown(data, 0) == [] && Reads(q, k, 0, data, q, k, 0)
  {
    assert data[0..0] == [];
    if k.mark.Some? { assert Bytes(k.mark.value.field, data[0..0]) == []; }
  }

  lemma ReadsThen(q0: Parser, k0: Sink, data: string, q: Parser, k: Sink, n: nat, q1: Parser, k1: Sink, n1: nat)
    requires n <= n1 <= |data| && k0.Before(0) && k0.Pending(0) == 0
    requires Reads(q0, k0, 0, data, q, k, n) && Reads(q, k, n, data, q1, k1, n1)
    ensures Reads(q0, k0, 0, data, q1, k1, n1)
  {
    hide Atoms, InOrder, Run;
    assert data[0..n] + data[n..n1] == data[0..n1];
    RunConcat(q0, 0, data[0..n], data[n..n1]);
  }

  /** A whole byte that advances. */
  lemma StepReads(q: Parser, k: Sink, n: nat, data: string, k1: Sink)
    requires n < |data| && k.Before(n) && !Overflows(q)
    requires Gained(Settle(Count(q), data[n]), k, n, data, k1) && Settle(Count(q), data[n]).next.Advance?
    ensures Reads(q, k, n, data, Settle(Count(q), data[n]).p, k1, n + 1)
  {
    hide Atoms, InOrder, Run, Settle, MarkOf;
    assert data[n..n + 1] == [data[n]];
    RunOne(q, k.Pending(n), data[n]);
  }

  /** A run that stops at the byte at n. */
  lemma RunStops(p: Parser, data: string, n: nat)
    requires n < |data| && Run(p, 0, data[0..n]).end.Advance?
    requires !Step(Run(p, 0, data[0..n]).p, data[n]).next.Advance?
    ensures var r := Run(p, 0, data[0..n]); var m := Step(r.p, data[n]);
            Run(p, 0, data) == if m.next.Error? then Result(m.p, n, r.out + m.out, r.held, Error)
                               else Result(m.p, n + 1, r.out + m.out, 0, Leave)
  {
    hide Run, Step;
    var r := Run(p, 0, data[0..n]);
    assert data[0..n] + data[n..] == data;
    assert data[n..] == [data[n]] + data[n + 1..];
    RunConcat(p, 0, data[0..n], data[n..]);
    RunOne(r.p, r.held, data[n]);
    RunConcat(r.p, r.held, [data[n]], data[n + 1..]);
  }

  /** The error exit: what is pending is not delivered. */
  lemma StepFails(q0: Parser, k0: Sink, n: nat, data: string, q: Parser, k: Sink)
    requires n < |data| && k0.Before(0) && k0.Pending(0) == 0 && k0.Shown(data, 0) == []
    requires Reads(q0, k0, 0, data, q, k, n)
    requires Step(q, data[n]).next.Error? && Step(q, data[n]).out == []
    ensures var r := Run(q0, 0, data);
            && r.p == Step(q, data[n]).p && r.used == n && r.end.Error?
            && InOrder(k.log, |data|) && Atoms(data, k.log) == Delivered(r)
  {
    hide Atoms, InOrder, Run, Step, MarkOf;
    RunStops(q0, data, n);
    InOrderWidens(k.log, if k.mark.Some? then k.mark.value.at else n, |data|);
    var out := Run(q0, 0, data[0..n]).out;
    assert out == k.Shown(data, n);
    assert out[..|out| - k.Pending(n)] == Atoms(data, k.log);
    assert out + [] == out;
  }

  /** The upgrade exit: nothing is pending. */
  lemma StepLeaves(q0: Parser, k0: Sink, n: nat, data: string, q: Parser, k: Sink, k1: Sink)
    requires n < |data| && k0.Before(0) && k0.Pending(0) == 0 && k0.Shown(data, 0) == [] && !Overflows(q)
    requires Reads(q0, k0, 0, data, q, k, n)
    requires Gained(Step(q, data[n]), k, n, data, k1) && Step(q, data[n]).next.Leave?
    ensures var r := Run(q0, 0, data);
            && r.p == Step(q, data[n]).p && r.used == n + 1 && r.end.Leave?
            && InOrder(k1.log, |data|) && Atoms(data, k1.log) == Delivered(r)
  {
    hide Atoms, InOrder, Run, Settle, MarkOf;
    LeaveUnmarked(Count(q), data[n]);
    RunStops(q0, data, n);
    InOrderWidens(k1.log, n + 1, |data|);
  }

  lemma LeaveUnmarked(q: Parser, ch: char)
    requires Settle(q, ch).next.Leave?
    ensures MarkOf(Settle(q, ch).p.state).None?
    decreases Rank(q.state)
  {
    LeaveOrBulk(q, ch);
    hide Micro, MarkOf;
    if Micro(q, ch).next.Reexecute? { LeaveUnmarked(Micro(q, ch).p, ch); }
    else { MicroTouches(q, ch); }
  }

  lemma LeaveOrBulk(q: Parser, ch: char)
    ensures Micro(q, ch).next.Leave? ==> !Bulk(q.state)
  {
    if Bulk(q.state) { assert !BodyPart(q, ch).next.Leave?; }
  }

  /** The end of the buffer: the mark that is still set is delivered. */
  lemma CallEnds(q0: Parser, k0: Sink, data: string, q: Parser, k: Sink)
    requires k0.Before(0) && k0.Pending(0) == 0 && k0.Shown(data, 0) == []
    requires Reads(q0, k0, 0, data, q, k, |data|)
    ensures var r := Run(q0, 0, data);
            var log := if k.mark.Some? then k.Deliver(k.mark.value.field, |data|).log else k.log;
            && r.p == q && r.used == |data|
            && InOrder(log, |data|) && Atoms(data, log) == Delivered(r)
  {
    hide Atoms, InOrder, Run;
    assert data[0..|data|] == data;
    if k.mark.Some? { AtomsData(data, k.log, k.mark.value.field, k.mark.value.at, |data|); }
  }

  /** The sink after a byte: the macros of all passes through the switch. */
  function SettleSink(q: Parser, ch: char, k: Sink, p: nat): Sink
    decreases Rank(q.state)
  {
    var m := Micro(q, ch);
    if m.next.Error? then k
    else
      var k1 := Apply(k, TouchOf(q.state, m), p);
      if m.next.Reexecute? then SettleSink(m.p, ch, k1, p) else k1
  }

  ghost predicate Settles(q: Parser, ch: char, k: Sink, p: nat, q1: Parser, next: Next, k1: Sink) {
    && q1 == Settle(q, ch).p && next == Settle(q, ch).next
    && if next.Error? then k1.log == SettleSink(q, ch, k, p).log else k1 == SettleSink(q, ch, k, p)
  }

  lemma ReexecuteFits(q: Parser, ch: char, k: Sink, p: nat)
    requires !Bulk(q.state) && k.Reaches(p) && k.Fits(q.state) && Micro(q, ch).next.Reexecute?
    ensures var m := Micro(q, ch); var k1 := Apply(k, TouchOf(q.state, m), p);
            k1.mark.None? && MarkOf(m.p.state).None?
  {
    hide Micro;
    MicroTouches(q, ch);
  }

  lemma DoesHttp(q: Parser, ch: char, k: Sink, p: nat)
    requires InHttp(q.state)
    ensures Does(AtHttp(q, ch), q.state, k, p, AtHttp(q, ch).p, AtHttp(q, ch).next, k)
  {
  }

  lemma DoesParameters(q: Parser, ch: char, k: Sink, p: nat)
    requires q.state.ChunkParameters?
    ensures Does(BodyPart(q, ch), q.state, k, p,
                 q.(state := if ch == CR then ChunkSizeAlmostDone else ChunkParameters), Advance, k)
  {
  }

  lemma ValueFirstStaysInside(q: Parser, ch: char)
    ensures var m := AtValueFirst(q, ch);
            m.p.state == q.state && (m.next.Error? || (m.next.Advance? && m.out == [Byte(Value, ch)]))
  {
  }

  lemma DoesDead(q: Parser, ch: char, k: Sink, p: nat)
    requires q.state.Dead?
    ensures Does(RequestLine(q, ch), q.state, k, p, RequestLine(q, ch).p, RequestLine(q, ch).next, k)
  {
  }

  lemma DoesMessageDone(q: Parser, ch: char, k: Sink, p: nat)
    requires q.state.MessageDone?
    ensures Does(BodyPart(q, ch), q.state, k, p, EndMessage(q).p, Advance, k.Tell(Complete))
  {
  }
}
