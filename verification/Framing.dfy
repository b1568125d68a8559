/** Message framing: where the header ends, and how the body is delimited (sections 3.6.1 and 4.4 of
    RFC 2616). */
module Framing {
  import opened Chars
  import opened Options
  import opened Parser
  import opened Trace
  import opened Split
  import opened Cuts
  import opened Values
  import opened Lengths
  import opened Lines
  import opened BulkReads

  // ---------------------------------------------------------------- the empty line

  /** What follows the header, from its fields: the choice of section 4.4 of RFC 2616. */
  function AfterHeaders(p: Parser): Effect {
    var q := p.(nread := 0, upgrade := p.flags.upgrade || p.verb.CONNECT?);
    if q.upgrade then Effect(q.(state := NewMessage(q)), Leave, [HeadersComplete, Complete])
    else if q.flags.chunked then Effect(q.(state := ChunkSizeStart), Advance, [HeadersComplete])
    else if q.contentLength == 0 || q.contentLength == ULLONG_MAX then
      Effect(q.(state := NewMessage(q)), Advance, [HeadersComplete, Complete])
    else Effect(q.(state := BodyIdentity), Advance, [HeadersComplete])
  }

  /** The first byte of an empty line. */
  lemma FieldStartEnds(p: Parser)
    requires p.state.HeaderFieldStart? && p.nread < HTTP_MAX_HEADER_SIZE
    ensures Step(p, CR) == Move(p.(nread := p.nread + 1, state := HeadersAlmostDone))
    ensures Step(p, LF) == Step(p.(state := HeadersAlmostDone), LF)
  {
    hide RequestLine, BodyPart, AtHeadersAlmostDone;
    var c := Count(p);
    var q := c.(state := HeadersAlmostDone);
    assert Micro(c, CR) == AtFieldStart(c, CR) && Micro(c, LF) == Again(q, []);
    assert Settle(c, LF).out == [] + Settle(q, LF).out;
  }

  lemma HeadersEndLf(p: Parser)
    requires p.state.HeadersAlmostDone? && !p.flags.trailing && p.nread < HTTP_MAX_HEADER_SIZE
    ensures Step(p, LF) == AfterHeaders(p)
  {
    hide RequestLine, BodyPart;
    var c := Count(p);
    var q := c.(state := HeadersDone, upgrade := c.flags.upgrade || c.verb.CONNECT?);
    assert Micro(c, LF) == AtHeadersAlmostDone(c, LF);
    assert Micro(q, LF) == AtHeadersDone(q, LF);
    assert Settle(q, LF) == Micro(q, LF);
    assert Settle(c, LF).out == [HeadersComplete] + Settle(q, LF).out;
  }

  lemma TrailerEndLf(p: Parser)
    requires p.state.HeadersAlmostDone? && p.flags.trailing && p.nread < HTTP_MAX_HEADER_SIZE
    ensures Step(p, LF) == EndMessage(p.(nread := p.nread + 1))
  {
    hide RequestLine, BodyPart;
    assert Micro(Count(p), LF) == AtHeadersAlmostDone(Count(p), LF);
  }

  /** The effect of an empty line behind header lines. */
  function AtEmptyLine(p: Parser, n: nat): Effect {
    if p.flags.trailing then EndMessage(p.(nread := p.nread + n)) else AfterHeaders(p)
  }

  /** A stretch that fires `message_complete` with its last byte at the earliest. */
  ghost predicate CompletesLast(p: Parser, s: string) {
    && s != "" && Run(p, 0, s[..|s| - 1]).end.Advance?
    && Complete !in Run(p, 0, s[..|s| - 1]).out
  }

  lemma CompletesLastAfter(p: Parser, a: string, q: Parser, x: seq<Atom>, b: string)
    requires Run(p, 0, a) == Result(q, |a|, x, 0, Advance) && Complete !in x && CompletesLast(q, b)
    ensures CompletesLast(p, a + b)
  {
    hide Run;
    var c := b[..|b| - 1];
    assert (a + b)[..|a + b| - 1] == a + c;
    RunJoin(p, a, q, x, c, Run(q, 0, c));
  }

  lemma NoComplete(f: Field, s: string)
    ensures Complete !in Bytes(f, s)
  {
  }

  /** A bare LF as the empty line. */
  lemma RunBareLf(s: Parser)
    requires s.state.HeaderFieldStart? && s.nread < HTTP_MAX_HEADER_SIZE
    ensures var m := AtEmptyLine(s, 1); Run(s, 0, [LF]) == Result(m.p, 1, m.out, 0, m.next)
  {
    hide Step, Run, AtEmptyLine, MarkOf;
    FieldStartEnds(s);
    EmptyLineEnds(s.(state := HeadersAlmostDone), 1);
    EmptyLineState(s, 1);
    RunOne(s, 0, LF);
  }

  /** A CR and an LF as the empty line. */
  lemma RunCrLf(s: Parser)
    requires s.state.HeaderFieldStart? && s.nread + 2 <= HTTP_MAX_HEADER_SIZE
    ensures var m := AtEmptyLine(s, 2); Run(s, 0, [CR, LF]) == Result(m.p, 2, m.out, 0, m.next)
    ensures Run(s, 0, [CR]).out == [] && Run(s, 0, [CR]).end.Advance?
  {
    hide Step, Run, AtEmptyLine, MarkOf;
    LineMarks();
    FieldStartEnds(s);
    var q := s.(nread := s.nread + 1, state := HeadersAlmostDone);
    RunOne(s, 0, CR);
    EmptyLineEnds(q, 2);
    EmptyLineState(s, 2);
    RunSnoc(s, 0, [CR], LF);
    assert [CR] + [LF] == [CR, LF];
  }

  /** The empty line that ends a header or a trailer, with or without a CR. */
  lemma RunEmptyLine(p: Parser, eol: string)
    requires LineStart(p.state) && IsEol(eol) && p.nread + |eol| <= HTTP_MAX_HEADER_SIZE
    ensures var m := AtEmptyLine(p, |eol|); Run(p, 0, eol) == Result(m.p, |eol|, m.out, 0, m.next)
    ensures CompletesLast(p, eol)
  {
    hide Run, AtEmptyLine;
    var s := p.(state := HeaderFieldStart);
    EmptyLineState(p, |eol|);
    RunFromLws(p, eol);
    if eol == [LF] {
      RunBareLf(s);
      RunNothing(p, 0);
      assert eol[..0] == "";
    } else {
      RunCrLf(s);
      RunFromLws(p, [CR]);
      assert eol[..1] == [CR];
    }
  }

  /** The LF of an empty line of n bytes. */
  lemma EmptyLineEnds(q: Parser, n: nat)
    requires q.state.HeadersAlmostDone? && 0 < n <= q.nread + 1 && q.nread < HTTP_MAX_HEADER_SIZE
    ensures Step(q, LF) == AtEmptyLine(q.(nread := q.nread + 1 - n), n)
  {
    hide Step;
    if q.flags.trailing { TrailerEndLf(q); } else { HeadersEndLf(q); }
  }

  /** The state in front of an empty line does not matter; the last of its events is a notification. */
  lemma EmptyLineState(p: Parser, n: nat)
    ensures AtEmptyLine(p.(state := HeadersAlmostDone), n) == AtEmptyLine(p.(state := HeaderFieldStart), n)
    ensures AtEmptyLine(p.(state := HeadersAlmostDone), n) == AtEmptyLine(p, n)
    ensures var m := AtEmptyLine(p, n);
            !m.next.Error? && !m.next.Reexecute? && m.out != [] && !m.out[|m.out| - 1].Byte?
  {
  }

  // ---------------------------------------------------------------- identity bodies

  /** With a known length n, of any k bytes after the header the first min(k, n) are the body of this
      message, and `message_complete` comes exactly with byte n; the rest is the next message. */
  lemma IdentityBody(p: Parser, data: string)
    requires p.state.BodyIdentity? && 0 < p.contentLength
    ensures var n := p.contentLength; var r := Run(p, 0, data);
            if |data| < n then r == Result(p.(contentLength := n - |data|), |data|, Bytes(Body, data), |data|, Advance)
            else
              var q := p.(contentLength := 0, state := NewMessage(p));
              r == Then(Result(q, n, Bytes(Body, data[..n]) + [Complete], 0, Advance), Run(q, 0, data[n..]))
  {
    hide Run, NewMessage;
    var n := p.contentLength;
    if |data| < n {
      BodyRun(p, 0, data);
    } else {
      IdentityRun(p, 0, data[..n]);
      RunConcat(p, 0, data[..n], data[n..]);
      assert data[..n] + data[n..] == data;
    }
  }

  /** The same for a body that arrives in any pieces: the callbacks get its bytes as far as they are
      there, and exactly the first n of them before message_complete. */
  lemma IdentityAnySplit(p: Parser, pieces: seq<string>)
    requires p.state.BodyIdentity? && 0 < p.contentLength && p.errno.Ok? && NoEarlyEnd(p, pieces)
    ensures var n := p.contentLength; var data := Concat(pieces); var r := Calls(p, pieces);
            if |data| < n then
              r.out == Bytes(Body, data) && r.end.Advance? && r.p == p.(contentLength := n - |data|)
            else Bytes(Body, data[..n]) + [Complete] <= r.out
  {
    hide Run;
    var n, data := p.contentLength, Concat(pieces);
    AnySplit(p, pieces);
    IdentityBody(p, data);
    if |data| >= n {
      var q := p.(contentLength := 0, state := NewMessage(p));
      RunHeld(q, 0, 0, data[n..]);
      assert Bytes(Body, data[..n]) + [Complete] <= Delivered(Run(p, 0, data));
    }
  }

  // ---------------------------------------------------------------- chunked bodies

  /** A chunk as it is sent: the spelling of its size, its extensions, its data. */
  datatype Chunk = Chunk(size: string, ext: string, data: string)

  /** Any spelling of the size (both cases, leading zeros) and any extensions without a CR, within
      the header limit for the line. */
  predicate LineOk(size: string, ext: string) {
    && IsHexString(size) && |size| + |ext| + 2 <= HTTP_MAX_HEADER_SIZE
    && (ext != "" ==> ext[0] == ';' || ext[0] == ' ')
    && forall i :: 0 <= i < |ext| ==> ext[i] != CR
  }

  predicate ChunkOk(c: Chunk) {
    && LineOk(c.size, c.ext)
    && c.data != "" && Guarded(16, HexDigits(c.size)) == Some(|c.data|)
  }

  function Encode(c: Chunk): string {
    c.size + c.ext + [CR, LF] + c.data + [CR, LF]
  }

  lemma ParametersStep(p: Parser, ch: char)
    requires p.state.ChunkParameters? && p.nread < HTTP_MAX_HEADER_SIZE
    ensures Step(p, ch) == Move(p.(nread := p.nread + 1,
                                   state := if ch == CR then ChunkSizeAlmostDone else ChunkParameters))
  {
    assert Micro(Count(p), ch) == BodyPart(Count(p), ch);
  }

  lemma SizeEndStep(p: Parser, ch: char)
    requires p.state.ChunkSize? && p.nread < HTTP_MAX_HEADER_SIZE && (ch == CR || ch == ';' || ch == ' ')
    ensures Step(p, ch) == Move(p.(nread := p.nread + 1,
                                   state := if ch == CR then ChunkSizeAlmostDone else ChunkParameters))
  {
    assert Micro(Count(p), ch) == AtChunkSize(Count(p), ch);
  }

  lemma {:induction false} RunParameters(p: Parser, s: string)
    requires p.state.ChunkParameters? && p.nread + |s| <= HTTP_MAX_HEADER_SIZE
    requires forall i :: 0 <= i < |s| ==> s[i] != CR
    ensures Run(p, 0, s) == Result(p.(nread := p.nread + |s|), |s|, [], 0, Advance)
    decreases |s|
  {
    hide Step, Run;
    if s == "" {
      RunNothing(p, 0);
    } else {
      var n := |s| - 1;
      assert s == s[..n] + [s[n]];
      RunParameters(p, s[..n]);
      ParametersStep(p.(nread := p.nread + n), s[n]);
      RunSnoc(p, 0, s[..n], s[n]);
    }
  }

  lemma SizeLineLf(p: Parser)
    requires p.state.ChunkSizeAlmostDone? && p.nread < HTTP_MAX_HEADER_SIZE
    ensures Step(p, LF) ==
            Move(if p.contentLength == 0 then
                   p.(nread := 0, flags := p.flags.(trailing := true), state := HeaderFieldStart)
                 else p.(nread := 0, state := ChunkData))
  {
    assert Micro(Count(p), LF) == AtChunkSizeAlmostDone(Count(p), LF);
  }

  /** A chunk size line. */
  lemma RunSizeLine(p: Parser, size: string, ext: string)
    requires p.state.ChunkSizeStart? && p.nread == 0 && LineOk(size, ext)
    requires Guarded(16, HexDigits(size)).Some?
    ensures var n := Guarded(16, HexDigits(size)).value; var q := p.(contentLength := n, nread := 0);
            Run(p, 0, size + ext + [CR, LF]) ==
            Result(if n == 0 then q.(flags := p.flags.(trailing := true), state := HeaderFieldStart)
                   else q.(state := ChunkData), |size| + |ext| + 2, [], 0, Advance)
  {
    hide Step, Run, Guarded, HexDigits;
    RunHex(p, size);
    var q := Run(p, 0, size).p;
    RunExtensions(q, ext);
    RunConcat(p, 0, size, ext + [CR]);
    var a := q.(nread := q.nread + |ext| + 1, state := ChunkSizeAlmostDone);
    SizeLineLf(a);
    RunSnoc(p, 0, size + (ext + [CR]), LF);
    assert size + ext + [CR, LF] == size + (ext + [CR]) + [LF];
  }

  lemma RunExtensions(q: Parser, ext: string)
    requires q.state.ChunkSize? && q.nread + |ext| + 1 <= HTTP_MAX_HEADER_SIZE
    requires ext != "" ==> ext[0] == ';' || ext[0] == ' '
    requires forall i :: 0 <= i < |ext| ==> ext[i] != CR
    ensures Run(q, 0, ext + [CR]) ==
            Result(q.(nread := q.nread + |ext| + 1, state := ChunkSizeAlmostDone), |ext| + 1, [], 0, Advance)
  {
    hide Step, Run;
    if ext == "" {
      SizeEndStep(q, CR);
      RunOne(q, 0, CR);
      assert ext + [CR] == [CR];
    } else {
      RunOneExtension(q, ext);
      ParametersStep(q.(nread := q.nread + |ext|, state := ChunkParameters), CR);
      RunSnoc(q, 0, ext, CR);
    }
  }

  lemma RunOneExtension(q: Parser, ext: string)
    requires q.state.ChunkSize? && q.nread + |ext| <= HTTP_MAX_HEADER_SIZE
    requires ext != "" && (ext[0] == ';' || ext[0] == ' ')
    requires forall i :: 0 <= i < |ext| ==> ext[i] != CR
    ensures Run(q, 0, ext) ==
            Result(q.(nread := q.nread + |ext|, state := ChunkParameters), |ext|, [], 0, Advance)
  {
    hide Step, Run;
    SizeEndStep(q, ext[0]);
    RunOne(q, 0, ext[0]);
    RunParameters(q.(nread := q.nread + 1, state := ChunkParameters), ext[1..]);
    RunConcat(q, 0, [ext[0]], ext[1..]);
    assert ext == [ext[0]] + ext[1..];
  }

  lemma ChunkEndSteps(p: Parser)
    ensures p.state.ChunkDataAlmostDone? ==> Step(p, CR) == Move(p.(state := ChunkDataDone))
    ensures p.state.ChunkDataDone? ==> Step(p, LF) == Move(p.(nread := 0, state := ChunkSizeStart))
  {
    if p.state.ChunkDataDone? { assert Micro(p, LF) == AtChunkDataDone(p, LF); }
  }

  /** One chunk: its data is delivered, and the parser is back where it started. */
  lemma RunChunk(p: Parser, c: Chunk)
    requires p.state.ChunkSizeStart? && p.nread == 0 && ChunkOk(c)
    ensures Run(p, 0, Encode(c)) == Result(p.(contentLength := 0), |Encode(c)|, Bytes(Body, c.data), 0, Advance)
  {
    hide Step, Run, Guarded, HexDigits, LineOk;
    var line := c.size + c.ext + [CR, LF];
    RunSizeLine(p, c.size, c.ext);
    var q := p.(contentLength := |c.data|, nread := 0, state := ChunkData);
    ChunkRun(q, 0, c.data);
    RunConcat(p, 0, line, c.data);
    var a := q.(contentLength := 0, state := ChunkDataAlmostDone);
    ChunkEndSteps(a);
    RunSnoc(p, 0, line + c.data, CR);
    ChunkEndSteps(a.(state := ChunkDataDone));
    RunSnoc(p, 0, line + c.data + [CR], LF);
    assert Encode(c) == line + c.data + [CR] + [LF];
  }

  /** A chunk as any client prints it, its size in hex in either case, is read back. */
  lemma PrintedChunk(p: Parser, data: string, upper: bool)
    requires p.state.ChunkSizeStart? && p.nread == 0 && 0 < |data| < 0xFFFF_FFFF_FFFF_FFFF
    ensures var s := ShowHex(|data|, upper) + "\r\n" + data + "\r\n";
            Run(p, 0, s) == Result(p.(contentLength := 0), |s|, Bytes(Body, data), 0, Advance)
  {
    hide Run, Guarded, HexDigits, ShowHex, IsHexString;
    var c := Chunk(ShowHex(|data|, upper), "", data);
    PrintedSize(|data|, upper);
    RunChunk(p, c);
    assert Encode(c) == ShowHex(|data|, upper) + "\r\n" + data + "\r\n";
  }

  function EncodeAll(cs: seq<Chunk>): string
    decreases |cs|
  {
    if cs == [] then "" else Encode(cs[0]) + EncodeAll(cs[1..])
  }

  function Payload(cs: seq<Chunk>): string
    decreases |cs|
  {
    if cs == [] then "" else cs[0].data + Payload(cs[1..])
  }

  lemma {:induction false} RunChunks(p: Parser, cs: seq<Chunk>)
    requires p.state.ChunkSizeStart? && p.nread == 0
    requires forall c <- cs :: ChunkOk(c)
    ensures Run(p, 0, EncodeAll(cs)) ==
            Result(if cs == [] then p else p.(contentLength := 0), |EncodeAll(cs)|,
                   Bytes(Body, Payload(cs)), 0, Advance)
    decreases |cs|
  {
    hide Run, ChunkOk, Encode;
    if cs == [] {
      RunNothing(p, 0);
      assert Bytes(Body, "") == [];
    } else {
      assert cs[0] in cs;
      RunChunk(p, cs[0]);
      RunChunks(p.(contentLength := 0), cs[1..]);
      RunConcat(p, 0, Encode(cs[0]), EncodeAll(cs[1..]));
      assert Bytes(Body, Payload(cs)) == Bytes(Body, cs[0].data) + Bytes(Body, Payload(cs[1..]));
    }
  }

  /** The end of a chunked coding: any spelling of zero, with any extensions, trailer fields, and the
      empty line. */
  datatype Last = Last(size: string, ext: string, trailer: seq<Line>, eol: string)

  predicate LastOk(x: Last) {
    && LineOk(x.size, x.ext) && Guarded(16, HexDigits(x.size)) == Some(0)
    && LinesFit(x.trailer) && IsEol(x.eol) && TrailerCount(x) <= HTTP_MAX_HEADER_SIZE
  }

  /** The bytes of a trailer, which count as header bytes. */
  function TrailerCount(x: Last): nat {
    |PrintLines(x.trailer)| + |x.eol|
  }

  function EncodeLast(x: Last): string {
    x.size + x.ext + [CR, LF] + PrintLines(x.trailer) + x.eol
  }

  /** The whole chunked coding of section 3.6.1 of RFC 2616. */
  function EncodeBody(cs: seq<Chunk>, x: Last): string {
    EncodeAll(cs) + EncodeLast(x)
  }

  /** What a trailer says: its fields count like those of the header, behind whose flags they stand. */
  function TrailerFacts(f: Flags, x: Last): Facts
    requires LinesFit(x.trailer)
  {
    LinesFacts(Facts(f.(trailing := true), 0), x.trailer)
  }

  /** The parser behind a chunked body. */
  ghost predicate BehindBody(p: Parser, q: Parser, x: Last)
    requires LinesFit(x.trailer)
  {
    var f := TrailerFacts(p.flags, x);
    q == p.(contentLength := f.length, nread := TrailerCount(x), flags := f.flags,
            state := NewMessage(p.(flags := f.flags)), headerState := q.headerState, index := q.index)
  }

  lemma {:induction false} LinesHaveNoComplete(ls: seq<Line>)
    ensures Complete !in LinesAtoms(ls)
    decreases |ls|
  {
    if ls != [] {
      NoComplete(Name, ls[0].name);
      NoComplete(Value, ls[0].first.value + FoldsValue(ls[0].folds));
      LinesHaveNoComplete(ls[1..]);
    }
  }

  /** A trailer and its empty line. */
  lemma RunTrailer(p: Parser, x: Last)
    requires p.state.HeaderFieldStart? && p.nread == 0 && p.flags.trailing && LastOk(x)
    ensures var s := PrintLines(x.trailer) + x.eol; var r := Run(p, 0, s);
            var f := LinesFacts(Facts(p.flags, p.contentLength), x.trailer);
            && r == Result(r.p, |s|, LinesAtoms(x.trailer) + [Complete], 0, Advance)
            && r.p == p.(contentLength := f.length, nread := TrailerCount(x), flags := f.flags,
                         state := NewMessage(p.(flags := f.flags)), headerState := r.p.headerState, index := r.p.index)
            && CompletesLast(p, s)
  {
    hide Run, CompletesLast, LinesFacts, PrintLines, LinesFit, LinesAtoms, LineOk, Guarded, HexDigits;
    RunLines(p, x.trailer);
    LinesKeepTrailing(Facts(p.flags, p.contentLength), x.trailer);
    LinesHaveNoComplete(x.trailer);
    var q := Run(p, 0, PrintLines(x.trailer)).p;
    RunEmptyLine(q, x.eol);
    RunJoin(p, PrintLines(x.trailer), q, LinesAtoms(x.trailer), x.eol, Run(q, 0, x.eol));
    CompletesLastAfter(p, PrintLines(x.trailer), q, LinesAtoms(x.trailer), x.eol);
  }

  lemma RunLast(p: Parser, x: Last)
    requires p.state.ChunkSizeStart? && p.nread == 0 && LastOk(x)
    ensures var s := EncodeLast(x); var r := Run(p, 0, s);
            && r == Result(r.p, |s|, LinesAtoms(x.trailer) + [Complete], 0, Advance)
            && BehindBody(p, r.p, x) && CompletesLast(p, s)
  {
    hide Run, CompletesLast, LinesFacts, PrintLines, LinesAtoms, Guarded, HexDigits, LineOk;
    var line := x.size + x.ext + [CR, LF];
    RunSizeLine(p, x.size, x.ext);
    var q := p.(contentLength := 0, nread := 0, flags := p.flags.(trailing := true), state := HeaderFieldStart);
    RunTrailer(q, x);
    var s := PrintLines(x.trailer) + x.eol;
    RunJoin(p, line, q, [], s, Run(q, 0, s));
    CompletesLastAfter(p, line, q, [], s);
    assert EncodeLast(x) == line + s;
  }

  /** Chunked round trip: the delivered body is the concatenation of the chunks, whatever the spelling of
      the sizes and whatever the extensions, behind it come the trailer fields, and `message_complete` is
      fired exactly once, with the last byte of the terminating empty line. */
  lemma ChunkedRoundTrip(p: Parser, cs: seq<Chunk>, x: Last)
    requires p.state.ChunkSizeStart? && p.nread == 0
    requires (forall c <- cs :: ChunkOk(c)) && LastOk(x)
    ensures var s := EncodeBody(cs, x); var r := Run(p, 0, s);
            && r == Result(r.p, |s|, Bytes(Body, Payload(cs)) + LinesAtoms(x.trailer) + [Complete], 0, Advance)
            && BehindBody(p, r.p, x) && CompletesLast(p, s)
  {
    hide Run, ChunkOk, LastOk, CompletesLast, EncodeAll, EncodeLast, LinesAtoms;
    RunChunks(p, cs);
    var q := if cs == [] then p else p.(contentLength := 0);
    RunLast(q, x);
    NoComplete(Body, Payload(cs));
    RunJoin(p, EncodeAll(cs), q, Bytes(Body, Payload(cs)), EncodeLast(x), Run(q, 0, EncodeLast(x)));
    CompletesLastAfter(p, EncodeAll(cs), q, Bytes(Body, Payload(cs)), EncodeLast(x));
  }

  /** The same in any split of the coding into calls. */
  lemma ChunkedAnySplit(p: Parser, cs: seq<Chunk>, x: Last, pieces: seq<string>)
    requires p.state.ChunkSizeStart? && p.nread == 0
    requires (forall c <- cs :: ChunkOk(c)) && LastOk(x)
    requires Concat(pieces) == EncodeBody(cs, x) && p.errno.Ok? && NoEarlyEnd(p, pieces)
    ensures var r := Calls(p, pieces);
            && r.out == Bytes(Body, Payload(cs)) + LinesAtoms(x.trailer) + [Complete] && r.end.Advance?
            && r.used == |Concat(pieces)| && BehindBody(p, r.p, x)
  {
    hide Run, ChunkOk, LastOk, EncodeBody, Calls, NoEarlyEnd, CompletesLast, BehindBody, LinesAtoms;
    ChunkedRoundTrip(p, cs, x);
    AnySplit(p, pieces);
  }
}
