/** Whole requests: printing one and parsing it gives it back. */
module Requests {
  import opened Chars
  import opened Parser
  import opened Trace
  import opened Split
  import opened Methods
  import opened Values
  import opened BulkReads
  import opened Lines
  import opened Framing
  import opened RequestLines

  /** A message body as it is sent. */
  datatype Content = Raw(data: string) | Coded(chunks: seq<Chunk>, last: Last)

  /** A request as it is sent: line ends before it, the request line with the blanks between its parts,
      the header lines, the empty line, the body. */
  datatype Request = Request(lead: string, verb: Method, gap: string, target: string, version: Version,
                             lines: seq<Line>, eol: string, content: Content)

  predicate HeadFits(r: Request) {
    && (forall i | 0 <= i < |r.lead| :: r.lead[i] == CR || r.lead[i] == LF) && Blanks(r.gap)
    && TargetOk(r.verb, r.target) && VersionOk(r.version) && LinesFit(r.lines) && IsEol(r.eol)
  }

  /** What the header says about the message. */
  function HeadFacts(r: Request): Facts
    requires HeadFits(r)
  {
    LinesFacts(Facts(NO_FLAGS, ULLONG_MAX), r.lines)
  }

  predicate Upgrades(r: Request)
    requires HeadFits(r)
  {
    HeadFacts(r).flags.upgrade || r.verb.CONNECT?
  }

  /** The body is delimited as the header says (section 4.4 of RFC 2616): an upgrade has none, the
      chunked coding overrides Content-Length, and without either there is none. */
  predicate WellFormed(r: Request) {
    && HeadFits(r)
    && var f := HeadFacts(r);
       if Upgrades(r) then r.content == Raw("")
       else if f.flags.chunked then
         r.content.Coded? && LastOk(r.content.last) && forall c <- r.content.chunks :: ChunkOk(c)
       else r.content.Raw? && |r.content.data| == if f.length == ULLONG_MAX then 0 else f.length
  }

  function PrintRequestLine(r: Request): string {
    r.lead + (OnWire(r.verb) + " " + (r.gap + (r.target + ShowVersion(r.version))))
  }

  /** The head of a request, with its empty line. */
  function PrintHead(r: Request): string {
    PrintRequestLine(r) + PrintLines(r.lines) + r.eol
  }

  function PrintContent(c: Content): string {
    match c
    case Raw(data) => data
    case Coded(chunks, last) => EncodeBody(chunks, last)
  }

  function Decoded(c: Content): string {
    match c
    case Raw(data) => data
    case Coded(chunks, _) => Payload(chunks)
  }

  function Trailer(c: Content): seq<Line> {
    match c
    case Raw(_) => []
    case Coded(_, last) => last.trailer
  }

  /** A request as it is sent. */
  function Print(r: Request): string {
    PrintHead(r) + PrintContent(r.content)
  }

  function HeadAtoms(r: Request): seq<Atom> {
    [Begin] + Bytes(Url, r.target) + LinesAtoms(r.lines)
  }

  function ContentAtoms(c: Content): seq<Atom> {
    Bytes(Body, Decoded(c)) + LinesAtoms(Trailer(c))
  }

  /** The merged event trace of a request. */
  function Message(r: Request): seq<Atom> {
    HeadAtoms(r) + ([HeadersComplete] + ContentAtoms(r.content) + [Complete])
  }

  /** The flags at the end of a request: those of its trailer count too. */
  function EndFlags(r: Request): Flags
    requires WellFormed(r)
  {
    var f := HeadFacts(r).flags;
    if r.content.Coded? then TrailerFacts(f, r.content.last).flags else f
  }

  /** `http_should_keep_alive` at the end of a request. */
  predicate StaysOpen(r: Request)
    requires WellFormed(r)
  {
    if MajorOf(r.version) > 0 && MinorOf(r.version) > 0 then !EndFlags(r).close else EndFlags(r).keepAlive
  }

  /** The header bytes that a request leaves counted: those of its trailer. */
  function LeftOver(r: Request): nat {
    if r.content.Coded? then TrailerCount(r.content.last) else 0
  }

  // ---------------------------------------------------------------- the head

  /** The parser behind a request line. */
  ghost predicate BehindRequestLine(p: Parser, q: Parser, r: Request)
    requires VersionOk(r.version)
  {
    q == p.(nread := p.nread + |PrintRequestLine(r)|, flags := NO_FLAGS, contentLength := ULLONG_MAX, verb := r.verb,
            index := q.index, httpMajor := MajorOf(r.version), httpMinor := MinorOf(r.version),
            state := HeaderFieldStart)
  }

  lemma RunRequestLine(p: Parser, r: Request)
    requires p.state.StartReq? && HeadFits(r) && p.nread + |PrintRequestLine(r)| <= HTTP_MAX_HEADER_SIZE
    ensures var s := PrintRequestLine(r); var q := Run(p, 0, s).p;
            && Run(p, 0, s) == Result(q, |s|, [Begin] + Bytes(Url, r.target), 0, Advance)
            && BehindRequestLine(p, q, r)
  {
    hide Run, OnWire, ShowVersion, Held, VersionOk, TargetOk, LinesFit, IsEol, MajorOf, MinorOf;
    RunSkipped(p, r.lead);
    var a := p.(nread := p.nread + |r.lead|);
    var m := OnWire(r.verb) + " ";
    RunMethod(a, r.verb);
    var b := Run(a, 0, m).p;
    RunSkipped(b, r.gap);
    var c := b.(nread := b.nread + |r.gap|);
    RunTargetVersion(c, r.target, r.version);
    var t := r.target + ShowVersion(r.version);
    var d := Run(c, 0, t);
    RunJoin(b, r.gap, c, [], t, d);
    RunJoin(a, m, b, [Begin], r.gap + t, Run(b, 0, r.gap + t));
    RunJoin(p, r.lead, a, [], m + (r.gap + t), Run(a, 0, m + (r.gap + t)));
  }

  /** The parser behind the header lines, before the empty line. */
  ghost predicate BehindHead(p: Parser, q: Parser, r: Request)
    requires HeadFits(r)
  {
    && LineStart(q.state)
    && q == p.(nread := p.nread + |PrintRequestLine(r) + PrintLines(r.lines)|, flags := HeadFacts(r).flags,
               contentLength := HeadFacts(r).length, verb := r.verb, index := q.index, headerState := q.headerState,
               httpMajor := MajorOf(r.version), httpMinor := MinorOf(r.version), state := q.state)
  }

  lemma RunHead(p: Parser, r: Request)
    requires p.state.StartReq? && HeadFits(r)
    requires p.nread + |PrintRequestLine(r) + PrintLines(r.lines)| <= HTTP_MAX_HEADER_SIZE
    ensures var s := PrintRequestLine(r) + PrintLines(r.lines); var q := Run(p, 0, s).p;
            && Run(p, 0, s) == Result(q, |s|, HeadAtoms(r), 0, Advance) && BehindHead(p, q, r)
  {
    hide Run, PrintRequestLine, LinesFacts, LinesFit, PrintLines, LinesAtoms, MajorOf, MinorOf;
    var s := PrintRequestLine(r);
    RunRequestLine(p, r);
    var a := Run(p, 0, s).p;
    RunLines(a, r.lines);
    RunJoin(p, s, a, [Begin] + Bytes(Url, r.target), PrintLines(r.lines), Run(a, 0, PrintLines(r.lines)));
  }

  // ---------------------------------------------------------------- the body

  /** A body with a known length. */
  lemma RunRaw(p: Parser, data: string)
    requires p.state.BodyIdentity? && 0 < |data| == p.contentLength
    ensures Run(p, 0, data) == Result(p.(contentLength := 0, state := NewMessage(p)), |data|,
                                      Bytes(Body, data) + [Complete], 0, Advance)
    ensures CompletesLast(p, data)
  {
    hide Run;
    IdentityRun(p, 0, data);
    BodyRun(p, 0, data[..|data| - 1]);
    NoComplete(Body, data[..|data| - 1]);
  }

  /** The parser behind a whole request, from q before its empty line. */
  ghost predicate Finished(q: Parser, x: Parser, r: Request)
    requires WellFormed(r)
  {
    x == q.(nread := LeftOver(r), upgrade := Upgrades(r), flags := EndFlags(r), contentLength := x.contentLength,
            state := if StaysOpen(r) then StartReq else Dead, headerState := x.headerState, index := x.index)
  }

  /** The empty line and the body. */
  ghost predicate EndsMessage(q: Parser, r: Request)
    requires WellFormed(r)
  {
    var s := r.eol + PrintContent(r.content);
    var x := Run(q, 0, s);
    && x == Result(x.p, |s|, [HeadersComplete] + ContentAtoms(r.content) + [Complete], 0,
                   if Upgrades(r) then Leave else Advance)
    && Finished(q, x.p, r) && CompletesLast(q, s)
  }

  lemma RunTail(p: Parser, r: Request, q: Parser)
    requires WellFormed(r) && BehindHead(p, q, r) && q.nread + |r.eol| <= HTTP_MAX_HEADER_SIZE
    requires !HeadFacts(r).flags.trailing
    ensures EndsMessage(q, r)
  {
    hide Run, HeadFacts, CompletesLast, EndsMessage, AtEmptyLine, TargetOk, LinesFit, PrintLines,
         PrintRequestLine, WellFormed, VersionOk, HeadFits, IsEol, HeadAtoms;
    HeadParts(r);
    RunEmptyLine(q, r.eol);
    if r.content.Coded? { CodedTail(q, r); } else if r.content.data == "" { BareTail(q, r); } else { RawTail(q, r); }
  }

  lemma CodedTail(q: Parser, r: Request)
    requires WellFormed(r) && r.content.Coded? && !q.flags.trailing
    requires var m := AtEmptyLine(q, |r.eol|);
             Run(q, 0, r.eol) == Result(m.p, |r.eol|, m.out, 0, m.next) && CompletesLast(q, r.eol)
    requires q.flags == HeadFacts(r).flags && q.verb == r.verb
    requires q.httpMajor == MajorOf(r.version) && q.httpMinor == MinorOf(r.version)
    ensures EndsMessage(q, r)
  {
    hide Run, HeadFacts, ChunkOk, LastOk, EncodeBody, CompletesLast, HeadFits, LinesAtoms, TrailerFacts;
    var m := AtEmptyLine(q, |r.eol|);
    ChunkedRoundTrip(m.p, r.content.chunks, r.content.last);
    var b := EncodeBody(r.content.chunks, r.content.last);
    RunJoin(q, r.eol, m.p, m.out, b, Run(m.p, 0, b));
    CompletesLastAfter(q, r.eol, m.p, m.out, b);
    var c, t := Bytes(Body, Payload(r.content.chunks)), LinesAtoms(r.content.last.trailer);
    assert [HeadersComplete] + (c + t + [Complete]) == [HeadersComplete] + (c + t) + [Complete];
  }

  lemma BareTail(q: Parser, r: Request)
    requires WellFormed(r) && r.content == Raw("") && !q.flags.trailing
    requires var m := AtEmptyLine(q, |r.eol|);
             Run(q, 0, r.eol) == Result(m.p, |r.eol|, m.out, 0, m.next) && CompletesLast(q, r.eol)
    requires q.flags == HeadFacts(r).flags && q.verb == r.verb && q.contentLength == HeadFacts(r).length
    requires q.httpMajor == MajorOf(r.version) && q.httpMinor == MinorOf(r.version)
    ensures EndsMessage(q, r)
  {
    hide Run, HeadFacts, CompletesLast, HeadFits, ContentAtoms, MajorOf, MinorOf, AtEmptyLine, WellFormed;
    NoContent();
    BareLength(r);
    BareEmptyLine(q, |r.eol|);
    assert r.eol + PrintContent(r.content) == r.eol;
  }

  lemma BareLength(r: Request)
    requires WellFormed(r) && r.content == Raw("")
    ensures Upgrades(r) || (!HeadFacts(r).flags.chunked && HeadFacts(r).length in {0, ULLONG_MAX})
  {
    hide HeadFits, HeadFacts, LastOk, ChunkOk;
  }

  /** An empty line behind which there is no body. */
  lemma BareEmptyLine(q: Parser, n: nat)
    requires !q.flags.trailing
    requires q.flags.upgrade || q.verb.CONNECT? || (!q.flags.chunked && q.contentLength in {0, ULLONG_MAX})
    ensures var up := q.flags.upgrade || q.verb.CONNECT?;
            AtEmptyLine(q, n) == Effect(q.(nread := 0, upgrade := up, state := NewMessage(q)),
                                        if up then Leave else Advance, [HeadersComplete, Complete])
  {
  }

  lemma NoContent()
    ensures [HeadersComplete] + ContentAtoms(Raw("")) + [Complete] == [HeadersComplete, Complete]
  {
    assert ContentAtoms(Raw("")) == [];
  }

  lemma RawTail(q: Parser, r: Request)
    requires WellFormed(r) && r.content.Raw? && r.content.data != "" && !q.flags.trailing
    requires var m := AtEmptyLine(q, |r.eol|);
             Run(q, 0, r.eol) == Result(m.p, |r.eol|, m.out, 0, m.next) && CompletesLast(q, r.eol)
    requires q.flags == HeadFacts(r).flags && q.verb == r.verb && q.contentLength == HeadFacts(r).length
    requires q.httpMajor == MajorOf(r.version) && q.httpMinor == MinorOf(r.version)
    ensures EndsMessage(q, r)
  {
    hide Run, HeadFacts, CompletesLast, HeadFits, ContentAtoms, MajorOf, MinorOf, AtEmptyLine, WellFormed;
    RawLength(r);
    RawEmptyLine(q, |r.eol|);
    var m := AtEmptyLine(q, |r.eol|);
    var data := r.content.data;
    RawAtoms(data);
    RunRaw(m.p, data);
    RunJoin(q, r.eol, m.p, m.out, data, Run(m.p, 0, data));
    CompletesLastAfter(q, r.eol, m.p, m.out, data);
  }

  lemma RawLength(r: Request)
    requires WellFormed(r) && r.content.Raw? && r.content.data != ""
    ensures !Upgrades(r) && !HeadFacts(r).flags.chunked
    ensures HeadFacts(r).length == |r.content.data| != ULLONG_MAX
  {
    hide HeadFits, HeadFacts, LastOk, ChunkOk;
  }

  /** An empty line behind which there is a body with a known length. */
  lemma RawEmptyLine(q: Parser, n: nat)
    requires !q.flags.trailing && !q.flags.upgrade && !q.verb.CONNECT? && !q.flags.chunked
    requires q.contentLength !in {0, ULLONG_MAX}
    ensures AtEmptyLine(q, n) ==
            Effect(q.(nread := 0, upgrade := false, state := BodyIdentity), Advance, [HeadersComplete])
  {
  }

  lemma RawAtoms(data: string)
    ensures [HeadersComplete] + (Bytes(Body, data) + [Complete])
            == [HeadersComplete] + ContentAtoms(Raw(data)) + [Complete]
  {
    assert ContentAtoms(Raw(data)) == Bytes(Body, data);
  }

  // ---------------------------------------------------------------- the round trip

  /** Request round trip: parsing a printed request delivers its target, its header lines, its body and its
      trailer, consumes all of it, and is ready for the next request exactly when the connection stays
      open; `message_complete` is fired with the last byte and not before. */
  lemma RequestRoundTrip(p: Parser, r: Request)
    requires p.state.StartReq? && WellFormed(r) && p.nread + |PrintHead(r)| <= HTTP_MAX_HEADER_SIZE
    ensures var x := Run(p, 0, Print(r));
            && x == Result(x.p, |Print(r)|, Message(r), 0, if Upgrades(r) then Leave else Advance)
            && x.p.verb == r.verb && x.p.errno == p.errno
            && x.p.state == (if StaysOpen(r) then StartReq else Dead)
            && x.p.nread == LeftOver(r)
    ensures CompletesLast(p, Print(r))
  {
    hide Run, PrintRequestLine, PrintLines, HeadAtoms, HeadFacts, WellFormed, PrintContent, CompletesLast, StaysOpen,
         EndFlags, Upgrades, LeftOver, ContentAtoms, HeadFits;
    HeadParts(r);
    RunHead(p, r);
    var a := PrintRequestLine(r) + PrintLines(r.lines);
    var q := Run(p, 0, a).p;
    RunTail(p, r, q);
    var s := r.eol + PrintContent(r.content);
    RunJoin(p, a, q, HeadAtoms(r), s, Run(q, 0, s));
    CompletesLastAfter(p, a, q, HeadAtoms(r), s);
    assert Print(r) == a + s;
  }

  lemma HeadParts(r: Request)
    requires WellFormed(r)
    ensures HeadFits(r) && IsEol(r.eol) && !HeadFacts(r).flags.trailing && Complete !in HeadAtoms(r)
    ensures LeftOver(r) <= HTTP_MAX_HEADER_SIZE
  {
    LinesKeepTrailing(Facts(NO_FLAGS, ULLONG_MAX), r.lines);
    NoComplete(Url, r.target);
    LinesHaveNoComplete(r.lines);
  }
}
