/** What the error numbers say. */
module Errors {
  import opened Parser
  import opened Invariant

  /** The error number of a byte that is refused in a state; digit tells whether it is a digit of a chunk
      size, which is then too large. */
  function ErrorIn(s: State, digit: bool): Errno {
    match s
    case Dead => ClosedConnection
    case StartReq => InvalidMethod
    case ReqMethod => InvalidMethod
    case ReqHttpStart => InvalidConstant
    case ReqHttpH => Strict
    case ReqHttpHT => Strict
    case ReqHttpHTT => Strict
    case ReqHttpHTTP => Strict
    case ReqFirstHttpMajor => InvalidVersion
    case ReqHttpMajor => InvalidVersion
    case ReqFirstHttpMinor => InvalidVersion
    case ReqHttpMinor => InvalidVersion
    case ReqLineAlmostDone => LfExpected
    case HeaderFieldStart => InvalidHeaderToken
    case HeaderField => InvalidHeaderToken
    case HeaderValueLws => InvalidHeaderToken
    case HeaderValueStart => InvalidContentLength
    case HeaderValue => InvalidContentLength
    case HeaderAlmostDone => Strict
    case HeadersAlmostDone => Strict
    case ChunkSizeStart => InvalidChunkSize
    case ChunkSize => if digit then InvalidContentLength else InvalidChunkSize
    case ChunkSizeAlmostDone => Strict
    case ChunkDataAlmostDone => Strict
    case ChunkDataDone => Strict
    case _ => InvalidUrl
  }

  /** The bytes that a chunk size can have. */
  predicate SizeDigit(c: char) {
    '0' <= c <= '9' || 'A' <= c <= 'F' || 'a' <= c <= 'f' || c as int >= 128
  }

  /** A refused byte sets the error number of the state it is refused in, or HPE_HEADER_OVERFLOW where the
      header limit is reached; in the body no byte but those of the chunk framing is refused. */
  lemma ErrorNumber(p: Parser, ch: char)
    requires Inv(p) && Step(p, ch).next.Error?
    ensures Step(p, ch).p.errno ==
            if p.nread == 81920 && ParsingHeader(p.state) then HeaderOverflow
            else ErrorIn(p.state, SizeDigit(ch))
    ensures !p.state.BodyIdentity? && !p.state.ChunkData? && (p.state.ChunkParameters? ==> p.nread == 81920)
  {
    hide HeaderLines, BodyPart, RequestLine, Sound, ErrorIn, SizeDigit, ParsingHeader;
    Small(p);
    if !Overflows(p) {
      if p.state.HeaderValueLws? { LwsError(Count(p), ch); }
      else if p.state.HeaderFieldStart? { StartError(Count(p), ch); }
      else if InHeaderLines(p.state) { LineError(Count(p), ch); }
      else if InBody(p.state) { BodyError(Count(p), ch); }
      else { RequestError(Count(p), ch); }
    }
  }

  lemma Small(p: Parser)
    requires Inv(p)
    ensures p.nread <= 81920 && !p.state.HeadersDone? && !p.state.MessageDone?
    ensures p.state.BodyIdentity? ==> p.contentLength > 0
    ensures Overflows(p) ==> !p.state.BodyIdentity? && !p.state.ChunkData?
    ensures Overflows(p) <==> p.nread == 81920 && ParsingHeader(p.state)
  {
  }

  lemma RequestError(p: Parser, ch: char)
    requires !InHeaderLines(p.state) && !InBody(p.state) && Settle(p, ch).next.Error?
    ensures Settle(p, ch).p.errno == ErrorIn(p.state, SizeDigit(ch))
  {
    hide ParseUrlChar, NextCandidate, FirstCandidate, Spelling;
    assert Settle(p, ch) == RequestLine(p, ch);
  }

  lemma LineError(p: Parser, ch: char)
    requires InHeaderLines(p.state) && !p.state.HeaderFieldStart? && !p.state.HeaderValueLws?
    requires !p.state.HeadersDone? && Settle(p, ch).next.Error?
    ensures Settle(p, ch).p.errno == ErrorIn(p.state, SizeDigit(ch))
  {
    hide FieldMatch, PushDigit, LineFlags, ValueMatch, NewMessage;
    var m := HeaderLines(p, ch);
    if m.next.Reexecute? { LineFeedGoesOn(m.p); }
  }

  lemma StartError(p: Parser, ch: char)
    requires p.state.HeaderFieldStart? && Settle(p, ch).next.Error?
    ensures Settle(p, ch).p.errno == InvalidHeaderToken == ErrorIn(HeaderFieldStart, SizeDigit(ch))
  {
    hide NewMessage, FieldStart, ErrorIn;
    ErrorOfStart(SizeDigit(ch));
    assert Micro(p, ch) == AtFieldStart(p, ch);
    if ch == '\n' { LineFeedGoesOn(p.(state := HeadersAlmostDone)); }
  }

  lemma ErrorOfStart(digit: bool)
    ensures ErrorIn(HeaderFieldStart, digit) == InvalidHeaderToken
  {
  }

  lemma LineFeedGoesOn(p: Parser)
    requires p.state.HeaderAlmostDone? || p.state.HeadersAlmostDone? || p.state.HeadersDone?
    ensures !Settle(p, '\n').next.Error?
  {
    hide AtHeadersDone, AtHeadersAlmostDone, LineFlags;
    DoneGoesOn(p);
    assert Micro(p, '\n') == HeaderLines(p, '\n');
    if p.state.HeadersAlmostDone? {
      var m := AtHeadersAlmostDone(p, '\n');
      AlmostDoneGoesOn(p);
      if m.next.Reexecute? {
        DoneGoesOn(m.p);
        assert Micro(m.p, '\n') == AtHeadersDone(m.p, '\n');
      }
    }
  }

  lemma DoneGoesOn(p: Parser)
    ensures !AtHeadersDone(p, '\n').next.Error? && !AtHeadersDone(p, '\n').next.Reexecute?
  {
    hide NewMessage;
  }

  lemma AlmostDoneGoesOn(p: Parser)
    ensures var m := AtHeadersAlmostDone(p, '\n');
            !m.next.Error? && (m.next.Reexecute? ==> m.p.state.HeadersDone?)
  {
    hide NewMessage;
  }

  lemma MessageGoesOn(p: Parser, ch: char)
    requires p.state.MessageDone?
    ensures !Settle(p, ch).next.Error?
  {
  }

  lemma LwsError(p: Parser, ch: char)
    requires p.state.HeaderValueLws? && Settle(p, ch).next.Error?
    ensures Settle(p, ch).p.errno == ErrorIn(HeaderValueLws, SizeDigit(ch))
  {
    assert Micro(p, ch) == AtLws(p, ch);
    hide Micro;
    StartError(p.(state := HeaderFieldStart), ch);
  }

  lemma BodyError(p: Parser, ch: char)
    requires InBody(p.state) && !p.state.MessageDone? && Settle(p, ch).next.Error?
    requires p.state.BodyIdentity? ==> p.contentLength > 0
    ensures Settle(p, ch).p.errno == ErrorIn(p.state, SizeDigit(ch))
    ensures !p.state.BodyIdentity? && !p.state.ChunkData? && !p.state.ChunkParameters?
  {
    hide PushDigit, NewMessage;
    var m := BodyPart(p, ch);
    if m.next.Reexecute? { MessageGoesOn(m.p, ch); }
  }

  /** A call with an empty buffer: nothing at all between two messages, or where an error has been set
      before; otherwise the end of a stream inside a message. */
  lemma EmptyCall(p: Parser)
    ensures var r := Invoke(p, "");
            var inside := p.errno.Ok? && !p.state.Dead? && !p.state.StartReq?;
            && r.out == [] && (r.end.Error? <==> inside || !p.errno.Ok?)
            && r.used == (if inside then 1 else 0)
            && r.p == (if inside then p.(errno := InvalidEofState) else p)
  {
  }
}
