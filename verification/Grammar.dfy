/** The order of events: an automaton over the merged trace, defined without the parser. */
module Grammar {
  import opened Chars
  import opened Options
  import opened Parser
  import opened Invariant
  import opened Cuts

  /** Where a trace of requests stands. */
  datatype Phase =
    | Outside | Begun | AfterUrl | AfterName | AfterValue | AfterHeaders | AfterBody | AfterTrailerName
    | AfterTrailerValue

  /** The events that may come next: begin, url (one or more bytes), header fields, each of them before
      its value, one headers_complete, body bytes, trailer fields and values, one message_complete. */
  function After(ph: Phase, a: Atom): Option<Phase> {
    match a
    case Begin => if ph.Outside? then Some(Begun) else None
    case HeadersComplete => if ph.AfterUrl? || ph.AfterName? || ph.AfterValue? then Some(AfterHeaders) else None
    case Complete =>
      if ph.AfterHeaders? || ph.AfterBody? || ph.AfterTrailerName? || ph.AfterTrailerValue? then Some(Outside) else None
    case Byte(f, _) => AfterByte(ph, f)
  }

  function AfterByte(ph: Phase, f: Field): Option<Phase> {
    match f
    case Url => if ph.Begun? || ph.AfterUrl? then Some(AfterUrl) else None
    case Name =>
      if ph.AfterUrl? || ph.AfterName? || ph.AfterValue? then Some(AfterName)
      else if ph.AfterHeaders? || ph.AfterBody? || ph.AfterTrailerName? || ph.AfterTrailerValue?
      then Some(AfterTrailerName)
      else None
    case Value =>
      if ph.AfterName? || ph.AfterValue? then Some(AfterValue)
      else if ph.AfterTrailerName? || ph.AfterTrailerValue? then Some(AfterTrailerValue)
      else None
    case Body => if ph.AfterHeaders? || ph.AfterBody? then Some(AfterBody) else None
  }

  /** Follows a whole trace; None when some event is out of order. */
  function Walk(ph: Phase, trace: seq<Atom>): Option<Phase>
    decreases |trace|
  {
    if trace == [] then Some(ph) else
    match After(ph, trace[0])
    case None => None
    case Some(next) => Walk(next, trace[1..])
  }

  lemma {:induction false} WalkConcat(ph: Phase, a: seq<Atom>, b: seq<Atom>)
    ensures Walk(ph, a + b) == match Walk(ph, a) case None => None case Some(mid) => Walk(mid, b)
    decreases |a|
  {
    if a == [] {
      assert a + b == b;
    } else {
      assert (a + b)[0] == a[0] && (a + b)[1..] == a[1..] + b;
      if After(ph, a[0]).Some? { WalkConcat(After(ph, a[0]).value, a[1..], b); }
    }
  }

  lemma WalkPrefix(ph: Phase, a: seq<Atom>, whole: seq<Atom>)
    requires a <= whole && Walk(ph, whole).Some?
    ensures Walk(ph, a).Some?
  {
    assert whole == a + whole[|a|..];
    WalkConcat(ph, a, whole[|a|..]);
  }

  /** The phases that fit a parser state. */
  predicate Fits(ph: Phase, p: Parser) {
    if p.state.StartReq? || p.state.Dead? then ph.Outside?
    else if p.state.ReqMethod? || p.state.ReqSpacesBeforeUrl? then ph.Begun? && !p.flags.trailing
    else if InHeaderLines(p.state) then FitsLine(ph, p)
    else if InBody(p.state) then
      && !p.flags.trailing
      && (ph.AfterBody? || (ph.AfterHeaders? && !p.state.ChunkDataAlmostDone? && !p.state.ChunkDataDone?))
    else ph.AfterUrl? && !p.flags.trailing
  }

  predicate FitsLine(ph: Phase, p: Parser) {
    if p.state.HeadersDone? then ph.AfterHeaders? && !p.flags.trailing
    else if p.flags.trailing then
      || ph.AfterTrailerValue?
      || (ph.AfterTrailerName? && !p.state.HeaderValue?)
      || ((ph.AfterHeaders? || ph.AfterBody?) && (p.state.HeaderFieldStart? || p.state.HeadersAlmostDone?))
    else
      || ph.AfterValue?
      || (ph.AfterName? && !p.state.HeaderValue?)
      || (ph.AfterUrl? && (p.state.HeaderFieldStart? || p.state.HeadersAlmostDone?))
  }

  /** What an effect may do to a trace in phase ph: extend it in order and, unless it is an error, to a
      phase that fits the new parser. */
  predicate InStep(ph: Phase, m: Effect) {
    var next := Walk(ph, m.out);
    next.Some? && (m.next.Error? || Fits(next.value, m.p))
  }

  lemma OneAtom(ph: Phase, a: Atom)
    ensures Walk(ph, []) == Some(ph)
    ensures Walk(ph, [a]) == After(ph, a)
  {
    if After(ph, a).Some? { assert Walk(After(ph, a).value, [a][1..]) == After(ph, a); }
  }

  lemma MicroInStep(ph: Phase, p: Parser, ch: char)
    requires Fits(ph, p)
    ensures InStep(ph, Micro(p, ch))
  {
    hide Fits, RequestLine, HeaderLines, BodyPart, InStep;
    if InHeaderLines(p.state) { LineInStep(ph, p, ch); }
    else if InBody(p.state) { BodyInStep(ph, p, ch); }
    else if MarkOf(p.state) == Some(Url) { UrlInStep(ph, p, ch); }
    else if InVersion(p.state) { VersionInStep(ph, p, ch); }
    else { StartInStep(ph, p, ch); }
  }

  lemma VersionInStep(ph: Phase, p: Parser, ch: char)
    requires Fits(ph, p) && InVersion(p.state)
    ensures InStep(ph, RequestLine(p, ch))
  {
    hide Walk, RequestLine;
    VersionMoves(p, ch);
    OneAtom(ph, Begin);
  }

  lemma StartInStep(ph: Phase, p: Parser, ch: char)
    requires Fits(ph, p) && (p.state.StartReq? || p.state.Dead? || p.state.ReqMethod? || p.state.ReqSpacesBeforeUrl?)
    ensures InStep(ph, RequestLine(p, ch))
  {
    hide Walk, Spelling, FirstCandidate, NextCandidate, ParseUrlChar;
    OneAtom(ph, Begin);
    OneAtom(ph, Byte(Url, ch));
    UrlCharStates(ReqSpacesBeforeUrl, ch);
    UrlCharStates(ReqServerStart, ch);
  }

  lemma UrlInStep(ph: Phase, p: Parser, ch: char)
    requires Fits(ph, p) && MarkOf(p.state) == Some(Url)
    ensures InStep(ph, RequestLine(p, ch))
  {
    if ch == ' ' || ch == CR || ch == LF {
      UrlEndInStep(ph, p, ch);
    } else {
      assert ph.AfterUrl? && !p.flags.trailing;
      assert RequestLine(p, ch) == UrlByte(p, p.state, ch);
      UrlCharStates(p.state, ch);
      var s := ParseUrlChar(p.state, ch);
      if !s.Dead? { UrlStateFits(ph, p, s); }
      OneAtom(ph, Byte(Url, ch));
      hide Walk, ParseUrlChar, RequestLine, Fits, UrlPrefix, UrlRest;
    }
  }

  lemma UrlStateFits(ph: Phase, p: Parser, s: State)
    requires ph.AfterUrl? && !p.flags.trailing && (UrlPrefix(s) || UrlRest(s))
    ensures Fits(ph, p.(state := s))
  {
  }

  lemma UrlEndInStep(ph: Phase, p: Parser, ch: char)
    requires Fits(ph, p) && MarkOf(p.state) == Some(Url) && (ch == ' ' || ch == CR || ch == LF)
    ensures InStep(ph, RequestLine(p, ch))
  {
    hide Walk, RequestLine, Fits;
    UrlEnds(p, ch);
    UrlPhase(ph, p);
    VersionFits(ph, RequestLine(p, ch).p);
    OneAtom(ph, Begin);
  }

  lemma UrlPhase(ph: Phase, p: Parser)
    requires Fits(ph, p) && MarkOf(p.state) == Some(Url)
    ensures ph.AfterUrl? && !p.flags.trailing
  {
  }

  lemma VersionFits(ph: Phase, p: Parser)
    requires ph.AfterUrl? && !p.flags.trailing
    ensures InVersion(p.state) || p.state.HeaderFieldStart? ==> Fits(ph, p)
  {
  }

  /** A blank or a line end behind a URL. */
  lemma UrlEnds(p: Parser, ch: char)
    requires MarkOf(p.state) == Some(Url) && (ch == ' ' || ch == CR || ch == LF)
    ensures var m := RequestLine(p, ch);
            && m.out == [] && m.p.flags == p.flags && (m.next.Advance? || m.next.Error?)
            && (m.next.Advance? ==> InVersion(m.p.state) || m.p.state.HeaderFieldStart?)
  {
    hide HeaderLines, BodyPart;
    assert RequestLine(p, ch) == InUrl(p, ch);
  }

  lemma LineInStep(ph: Phase, p: Parser, ch: char)
    requires Fits(ph, p) && InHeaderLines(p.state)
    ensures InStep(ph, HeaderLines(p, ch))
  {
    hide Fits, InStep, AtFieldStart, AtField, AtAlmostDone, AtLws;
    if p.state.HeadersAlmostDone? || p.state.HeadersDone? { LinesEndInStep(ph, p, ch); }
    else if p.state.HeaderValueStart? || p.state.HeaderValue? { ValueInStep(ph, p, ch); }
    else if p.state.HeaderFieldStart? || p.state.HeaderField? { NameInStep(ph, p, ch); }
    else { LineEndInStep(ph, p, ch); }
  }

  lemma NameInStep(ph: Phase, p: Parser, ch: char)
    requires Fits(ph, p)
    ensures p.state.HeaderFieldStart? ==> InStep(ph, AtFieldStart(p, ch))
    ensures p.state.HeaderField? ==> InStep(ph, AtField(p, ch))
  {
    hide Walk, FieldMatch, FieldStart, Token;
    OneAtom(ph, Byte(Name, ch));
  }

  lemma LineEndInStep(ph: Phase, p: Parser, ch: char)
    requires Fits(ph, p)
    ensures p.state.HeaderAlmostDone? ==> InStep(ph, AtAlmostDone(p, ch))
    ensures p.state.HeaderValueLws? ==> InStep(ph, AtLws(p, ch))
  {
    hide Walk, LineFlags;
    LineFlagsKeepTrailing(p.flags, p.headerState);
    OneAtom(ph, Begin);
  }

  lemma ValueInStep(ph: Phase, p: Parser, ch: char)
    requires Fits(ph, p) && (p.state.HeaderValueStart? || p.state.HeaderValue?)
    ensures InStep(ph, HeaderLines(p, ch))
  {
    hide Walk, ValueMatch, PushDigit;
    OneAtom(ph, Byte(Value, ch));
  }

  lemma LinesEndInStep(ph: Phase, p: Parser, ch: char)
    requires Fits(ph, p) && (p.state.HeadersAlmostDone? || p.state.HeadersDone?)
    ensures InStep(ph, HeaderLines(p, ch))
  {
    hide Walk, ShouldKeepAlive;
    OneAtom(ph, Complete);
    OneAtom(ph, HeadersComplete);
  }

  lemma BodyInStep(ph: Phase, p: Parser, ch: char)
    requires Fits(ph, p) && InBody(p.state)
    ensures InStep(ph, BodyPart(p, ch))
  {
    hide Walk, ShouldKeepAlive, PushDigit;
    OneAtom(ph, Complete);
    OneAtom(ph, Byte(Body, ch));
  }

  lemma {:induction false} SettleInStep(ph: Phase, p: Parser, ch: char)
    requires Fits(ph, p)
    ensures InStep(ph, Settle(p, ch))
    decreases Rank(p.state)
  {
    MicroInStep(ph, p, ch);
    hide Micro, Fits;
    var m := Micro(p, ch);
    if m.next.Reexecute? {
      var mid := Walk(ph, m.out).value;
      SettleInStep(mid, m.p, ch);
      WalkConcat(ph, m.out, Settle(m.p, ch).out);
    }
  }

  lemma StepInStep(ph: Phase, p: Parser, ch: char)
    requires Fits(ph, p)
    ensures InStep(ph, Step(p, ch))
  {
    hide Settle;
    if !Overflows(p) { SettleInStep(ph, Count(p), ch); }
  }

  lemma {:induction false} RunInOrder(ph: Phase, p: Parser, held: nat, data: string)
    requires Fits(ph, p)
    ensures var r := Run(p, held, data); var end := Walk(ph, r.out);
            end.Some? && (!r.end.Error? ==> Fits(end.value, r.p))
    decreases |data|
  {
    hide Step, Fits;
    if data != "" {
      StepInStep(ph, p, data[0]);
      var m := Step(p, data[0]);
      if m.next.Advance? {
        var mid := Walk(ph, m.out).value;
        RunInOrder(mid, m.p, Hold(held, m), data[1..]);
        WalkConcat(ph, m.out, Run(m.p, Hold(held, m), data[1..]).out);
      }
    }
  }

  /** The event grammar: whatever bytes a connection carries and however they are cut into calls, the
      callbacks are invoked in the order of the grammar; and if no call failed, the phase they have
      reached fits the parser. */
  lemma {:induction false} EventsInOrder(ph: Phase, p: Parser, pieces: seq<string>)
    requires Fits(ph, p)
    ensures var r := Calls(p, pieces); var end := Walk(ph, r.out);
            end.Some? && (!r.end.Error? ==> Fits(end.value, r.p))
    decreases |pieces|
  {
    hide Run, Fits, Idle;
    if pieces != [] {
      var first := Invoke(p, pieces[0]);
      RunInOrder(ph, p, 0, pieces[0]);
      WalkPrefix(ph, Delivered(first), first.out);
      if first.end.Advance? {
        var mid := Walk(ph, first.out).value;
        EventsInOrder(mid, first.p, pieces[1..]);
        WalkConcat(ph, first.out, Calls(first.p, pieces[1..]).out);
      }
    }
  }

  /** A connection starts outside a message. */
  lemma ConnectionInOrder(pieces: seq<string>)
    ensures Walk(Outside, Calls(INITIAL, pieces).out).Some?
  {
    EventsInOrder(Outside, INITIAL, pieces);
  }

  // ---------------------------------------------------------------- a closed connection

  predicate LineEnd(ch: char) {
    ch == CR || ch == LF
  }

  /** A closed connection says nothing any more: it reads past line ends as long as the header limit
      lasts, and any other byte is HPE_CLOSED_CONNECTION. */
  lemma {:induction false} ClosedForGood(p: Parser, held: nat, data: string)
    requires p.state.Dead? && p.errno.Ok? && p.nread <= HTTP_MAX_HEADER_SIZE
    ensures var r := Run(p, held, data);
            && r.out == [] && !r.end.Leave?
            && (forall i | 0 <= i < r.used :: LineEnd(data[i]))
            && r.p == (if r.end.Advance? then p.(nread := p.nread + r.used)
                       else if p.nread + r.used == HTTP_MAX_HEADER_SIZE
                       then p.(nread := HTTP_MAX_HEADER_SIZE + 1, errno := HeaderOverflow)
                       else p.(nread := p.nread + r.used + 1, errno := ClosedConnection))
            && (r.end.Advance? ==> p.nread + r.used <= HTTP_MAX_HEADER_SIZE)
            && (r.end.Error? ==>
                  r.used < |data| && (p.nread + r.used == HTTP_MAX_HEADER_SIZE || !LineEnd(data[r.used])))
    decreases |data|
  {
    hide Step, LineEnd;
    if data != "" {
      ClosedStep(p, data[0]);
      var m := Step(p, data[0]);
      if m.next.Advance? {
        ClosedForGood(m.p, Hold(held, m), data[1..]);
        var r := Run(m.p, Hold(held, m), data[1..]);
        forall i | 0 <= i < r.used + 1 ensures LineEnd(data[i]) {
          if i > 0 { assert data[i] == data[1..][i - 1]; }
        }
      }
    }
  }

  lemma ClosedStep(p: Parser, ch: char)
    requires p.state.Dead? && p.errno.Ok? && p.nread <= HTTP_MAX_HEADER_SIZE
    ensures Step(p, ch) == (var q := p.(nread := p.nread + 1);
                            if p.nread == HTTP_MAX_HEADER_SIZE then Stop(q, HeaderOverflow)
                            else if LineEnd(ch) then Move(q) else Stop(q, ClosedConnection))
  {
    hide HeaderLines, BodyPart;
  }
}
