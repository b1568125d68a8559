/** The parser accepts exactly the requests of the grammar, and says exactly what they are. */
module Acceptance {
  import opened Chars
  import opened Parser
  import opened Methods
  import opened Urls
  import opened Values
  import opened Lines
  import opened Framing
  import opened RequestLines
  import opened Requests
  import opened Completions
  import opened RequestLinesBack
  import opened LinesBack
  import opened FramingBack

  /** Line ends and a method. */
  lemma ReadStart(p: Parser, s: string) returns (lead: string, m: Method, q: Parser, b: string)
    requires p.state.StartReq? && Completes(p, s) && p.nread <= HTTP_MAX_HEADER_SIZE
    ensures s == lead + (OnWire(m) + " " + b) && (forall i | 0 <= i < |lead| :: lead[i] == CR || lead[i] == LF)
    ensures q.state.ReqSpacesBeforeUrl? && q.verb == m && Completes(q, b)
    ensures q.nread == p.nread + |lead| + |OnWire(m)| + 1 <= HTTP_MAX_HEADER_SIZE
  {
    hide Step, Run, Completes, OnWire, Held;
    var s1;
    lead, s1 := Divide(Lead, p, s);
    assert forall i | 0 <= i < |lead| :: Of(Lead, lead[i]);
    RunSkipped(p, lead);
    var a := Run(p, 0, lead).p;
    m, b := ReadMethod(a, s1);
    RunMethod(a, m);
    CompletesPast(a, OnWire(m) + " ", b);
    q := Run(a, 0, OnWire(m) + " ").p;
  }

  /** Blanks, a target, and what ends it. */
  lemma ReadRest(p: Parser, s: string) returns (gap: string, t: string, v: Version, q: Parser, b: string)
    requires p.state.ReqSpacesBeforeUrl? && Completes(p, s) && p.nread <= HTTP_MAX_HEADER_SIZE
    ensures s == gap + (t + ShowVersion(v)) + b && Blanks(gap) && TargetOk(p.verb, t) && VersionOk(v)
    ensures q.state.HeaderFieldStart? && Completes(q, b)
    ensures q.nread == p.nread + |gap| + |t| + |ShowVersion(v)| <= HTTP_MAX_HEADER_SIZE
  {
    hide Step, Run, Completes, UrlRest, UrlPrefix, PassState, ShowVersion, VersionOk;
    var s1;
    gap, s1 := Divide(Gap, p, s);
    assert forall i | 0 <= i < |gap| :: Of(Gap, gap[i]);
    RunSkipped(p, gap);
    var a := Run(p, 0, gap).p;
    var s2;
    t, s2 := ReadTarget(a, s1);
    RestIsAlive(PassState(a.verb, t));
    RunTarget(a, t);
    CompletesPrefix(a, t, s2);
    var c := Run(a, 0, t).p;
    v, b := ReadVersion(c, s2);
    RunVersion(c, 0, v);
    CompletesPast(c, ShowVersion(v), b);
    q := Run(c, 0, ShowVersion(v)).p;
    assert gap + (t + (ShowVersion(v) + b)) == gap + (t + ShowVersion(v)) + b;
  }

  /** The head of a request. */
  lemma ReadHead(p: Parser, s: string) returns (r: Request, b: string)
    requires p.state.StartReq? && Completes(p, s) && p.nread <= HTTP_MAX_HEADER_SIZE
    ensures HeadFits(r) && s == (PrintRequestLine(r) + PrintLines(r.lines)) + (r.eol + b) && r.content == Raw("")
    ensures p.nread + |PrintRequestLine(r) + PrintLines(r.lines)| + |r.eol| <= HTTP_MAX_HEADER_SIZE
  {
    hide Step, Completes, OnWire, TargetOk, VersionOk, ShowVersion, LinesFit, PrintLines, IsEol, Of;
    var lead, m, q, s1 := ReadStart(p, s);
    var gap, t, v, a, s2 := ReadRest(q, s1);
    FirstByte(a, s2);
    LineBack(a, s2[0]);
    NoTokenIsPad(s2[0]);
    var ls, eol;
    ls, eol, b := ReadLines(a, s2);
    r := Request(lead, m, gap, t, v, ls, eol, Raw(""));
    var w := gap + (t + ShowVersion(v));
    assert lead + (OnWire(m) + " " + (w + s2)) == (lead + (OnWire(m) + " " + w)) + s2;
  }

  /** What comes behind the empty line, as the header says. */
  lemma ReadContent(p: Parser, r: Request, q: Parser, b: string) returns (c: Content)
    requires HeadFits(r) && BehindHead(p, q, r) && Completes(q, r.eol + b)
    requires q.nread + |r.eol| <= HTTP_MAX_HEADER_SIZE && !HeadFacts(r).flags.trailing
    ensures WellFormed(r.(content := c)) && PrintContent(c) == b
  {
    hide Run, Step, Completes, HeadFacts, HeadFits, EncodeBody, ChunkOk, LastOk;
    HeadEol(r);
    RunEmptyLine(q, r.eol);
    var m := AtEmptyLine(q, |r.eol|);
    SameHead(r);
    if Complete in m.out {
      if b != "" { CompletesPrefix(q, r.eol, b); }
      c := Raw("");
    } else {
      CompletesPast(q, r.eol, b);
      if q.flags.chunked {
        var cs, x := ReadChunks(m.p, b);
        c := Coded(cs, x);
      } else {
        ReadIdentity(m.p, b);
        c := Raw(b);
      }
    }
  }

  lemma HeadEol(r: Request)
    requires HeadFits(r)
    ensures IsEol(r.eol)
  {
  }

  lemma SameHead(r: Request)
    requires HeadFits(r)
    ensures forall c :: HeadFits(r.(content := c)) && HeadFacts(r.(content := c)) == HeadFacts(r)
  {
    hide LinesFit, LinesFacts, TargetOk, VersionOk;
  }

  /** What takes the parser to the end of a message is a request. */
  lemma ReadRequest(p: Parser, s: string) returns (r: Request)
    requires p.state.StartReq? && Completes(p, s) && p.nread <= HTTP_MAX_HEADER_SIZE
    ensures WellFormed(r) && Print(r) == s && p.nread + |PrintHead(r)| <= HTTP_MAX_HEADER_SIZE
  {
    hide Run, Step, Completes, PrintRequestLine, PrintLines, HeadAtoms, HeadFits, HeadFacts, WellFormed, PrintContent;
    var h, b := ReadHead(p, s);
    RunHead(p, h);
    HeadPlain(h);
    var a := PrintRequestLine(h) + PrintLines(h.lines);
    CompletesPast(p, a, h.eol + b);
    var c := ReadContent(p, h, Run(p, 0, a).p, b);
    r := h.(content := c);
    SameLine(h, c);
    assert a + (h.eol + b) == (a + h.eol) + b;
  }

  lemma HeadPlain(r: Request)
    requires HeadFits(r)
    ensures !HeadFacts(r).flags.trailing && Complete !in HeadAtoms(r)
  {
    LinesKeepTrailing(Facts(NO_FLAGS, ULLONG_MAX), r.lines);
    NoComplete(Url, r.target);
    LinesHaveNoComplete(r.lines);
  }

  lemma SameLine(r: Request, c: Content)
    ensures PrintRequestLine(r.(content := c)) == PrintRequestLine(r)
  {
  }

  /** The language of the parser: bytes take it, without an error, to their first `message_complete` with
      the last of them, and make the events t on the way, if and only if they are a well-formed request,
      within the header limit, whose events are t. */
  lemma AcceptsExactly(p: Parser, s: string, t: seq<Atom>)
    requires p.state.StartReq? && p.nread <= 81920
    ensures (!Run(p, 0, s).end.Error? && CompletesLast(p, s) && Complete in Run(p, 0, s).out && Run(p, 0, s).out == t)
            <==> exists r :: WellFormed(r) && p.nread + |PrintHead(r)| <= 81920
                             && Print(r) == s && Message(r) == t
  {
    hide Run, WellFormed, PrintHead, Print, Message, CompletesLast;
    CompletesExactly(p, s);
    if Completes(p, s) {
      var r := ReadRequest(p, s);
      RequestRoundTrip(p, r);
    }
    forall r | WellFormed(r) && p.nread + |PrintHead(r)| <= HTTP_MAX_HEADER_SIZE && Print(r) == s
      ensures !Run(p, 0, s).end.Error? && CompletesLast(p, s) && Complete in Run(p, 0, s).out
      ensures Run(p, 0, s).out == Message(r)
    {
      RequestRoundTrip(p, r);
      MessageCompletes(r);
    }
  }

  lemma MessageCompletes(r: Request)
    ensures Complete in Message(r)
  {
    assert Message(r)[|Message(r)| - 1] == Complete;
  }
}
