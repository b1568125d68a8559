/** Whatever the parser takes for a body is one: of the length announced, or in chunks. */
module FramingBack {
  import opened Chars
  import opened Options
  import opened Parser
  import opened BulkReads
  import opened Lengths
  import opened Lines
  import opened Framing
  import opened Completions
  import opened LinesBack

  /** What completes an identity body is as long as announced. */
  lemma ReadIdentity(p: Parser, s: string)
    requires p.state.BodyIdentity? && 0 < p.contentLength && Completes(p, s)
    ensures |s| == p.contentLength
  {
    hide Run, Completes;
    var n := p.contentLength;
    CompletesExactly(p, s);
    IdentityBody(p, s);
    if |s| < n {
      NoComplete(Body, s);
    } else if |s| > n {
      assert s[..n] + s[n..] == s;
      CompletesPrefix(p, s[..n], s[n..]);
      IdentityRun(p, 0, s[..n]);
    }
  }

  /** What a byte of a chunk size line, or behind chunk data, can be where the parser does not refuse it. */
  lemma ChunkBack(p: Parser, ch: char)
    requires InBody(p.state) && !Step(p, ch).next.Error?
    ensures p.state.ChunkSizeStart? ==> Unhex(ch) != -1
    ensures p.state.ChunkSize? ==> Unhex(ch) != -1 || ch == CR || ch == ';' || ch == ' '
    ensures p.state.ChunkSizeAlmostDone? || p.state.ChunkDataDone? ==> ch == LF
    ensures p.state.ChunkDataAlmostDone? ==> ch == CR
  {
    hide PushDigit, Unhex;
    assert Micro(Count(p), ch) == BodyPart(Count(p), ch);
  }

  /** The digits of a chunk size, and the parser behind them. */
  lemma ReadSize(p: Parser, s: string) returns (size: string, q: Parser, r: string)
    requires p.state.ChunkSizeStart? && p.nread == 0 && Completes(p, s)
    ensures s == size + r && IsHexString(size) && Guarded(16, HexDigits(size)).Some?
    ensures q.state.ChunkSize? && q.nread == |size| && Completes(q, r)
    ensures r != "" && (r[0] == CR || r[0] == ';' || r[0] == ' ')
  {
    hide Step, Run, Completes, Guarded, HexDigits, Unhex;
    NotFull(p, s);
    ChunkBack(p, s[0]);
    SizeStartStep(p, s[0]);
    CompletesStep(p, s);
    var more;
    more, r := Divide(Size, Step(p, s[0]).p, s[1..]);
    size := [s[0]] + more;
    assert s == size + r;
    forall i | 0 <= i < |size| ensures Unhex(size[i]) != -1 {
      if i > 0 { assert size[i] == more[i - 1] && Of(Size, more[i - 1]); }
    }
    RunHex(p, size);
    CompletesPrefix(p, size, r);
    q := Run(p, 0, size).p;
    FirstByte(q, r);
    ChunkBack(q, r[0]);
  }

  /** The extensions of a chunk, and the CR behind them. */
  lemma ReadExtensions(p: Parser, s: string) returns (ext: string, r: string)
    requires p.state.ChunkSize? && Completes(p, s) && (s[0] == CR || s[0] == ';' || s[0] == ' ')
    ensures s == ext + ([CR] + r) && (ext != "" ==> ext[0] == ';' || ext[0] == ' ')
    ensures (forall i :: 0 <= i < |ext| ==> ext[i] != CR) && p.nread + |ext| + 1 <= HTTP_MAX_HEADER_SIZE
  {
    hide Step, Run, Completes;
    NotFull(p, s);
    SizeEndStep(p, s[0]);
    if s[0] == CR {
      ext, r := "", s[1..];
    } else {
      CompletesStep(p, s);
      var more, rest := Divide(Extension, Step(p, s[0]).p, s[1..]);
      ext, r := [s[0]] + more, rest[1..];
      assert s == ext + rest && rest == [CR] + r;
      forall i | 0 <= i < |ext| ensures ext[i] != CR {
        if i > 0 { assert ext[i] == more[i - 1] && Of(Extension, more[i - 1]); }
      }
      RunOneExtension(p, ext);
      CompletesPrefix(p, ext, rest);
      NotFull(Run(p, 0, ext).p, rest);
    }
  }

  /** A chunk size line, and the parser behind it. */
  lemma ReadSizeLine(p: Parser, s: string) returns (size: string, ext: string, r: string)
    requires p.state.ChunkSizeStart? && p.nread == 0 && Completes(p, s)
    ensures s == size + ext + [CR, LF] + r && LineOk(size, ext) && Guarded(16, HexDigits(size)).Some?
    ensures r != "" && Completes(Run(p, 0, size + ext + [CR, LF]).p, r)
  {
    hide Step, Run, Completes, Guarded, HexDigits, Unhex, LineOk;
    var q, s1;
    size, q, s1 := ReadSize(p, s);
    var s2;
    ext, s2 := ReadExtensions(q, s1);
    RunExtensions(q, ext);
    assert s1 == (ext + [CR]) + s2;
    CompletesPast(q, ext + [CR], s2);
    var a := Run(q, 0, ext + [CR]).p;
    NotFull(a, s2);
    ChunkBack(a, s2[0]);
    r := s2[1..];
    assert s == size + ext + [CR, LF] + r;
    SizeLineOk(size, ext);
    RunSizeLine(p, size, ext);
    CompletesPast(p, size + ext + [CR, LF], r);
  }

  lemma SizeLineOk(size: string, ext: string)
    requires IsHexString(size) && |size| + |ext| + 2 <= HTTP_MAX_HEADER_SIZE
    requires (ext != "" ==> ext[0] == ';' || ext[0] == ' ') && forall i :: 0 <= i < |ext| ==> ext[i] != CR
    ensures LineOk(size, ext)
  {
  }

  /** The data of a chunk, and the line end behind it. */
  lemma ReadData(p: Parser, s: string) returns (data: string, r: string)
    requires p.state.ChunkData? && 0 < p.contentLength && Completes(p, s)
    ensures s == data + [CR, LF] + r && |data| == p.contentLength
  {
    hide Step, Run, Completes;
    var n := p.contentLength;
    LongerThanData(p, s);
    data := s[..n];
    var rest := s[n..];
    assert s == data + rest;
    ChunkRun(p, 0, data);
    CompletesPrefix(p, data, rest);
    var q := Run(p, 0, data).p;
    FirstByte(q, rest);
    ChunkBack(q, rest[0]);
    ChunkEndSteps(q);
    CompletesStep(q, rest);
    var a := Step(q, CR).p;
    FirstByte(a, rest[1..]);
    ChunkBack(a, rest[1]);
    r := rest[2..];
    assert rest == [CR, LF] + r;
  }

  lemma LongerThanData(p: Parser, s: string)
    requires p.state.ChunkData? && 0 < p.contentLength && Completes(p, s)
    ensures |s| > p.contentLength
  {
    hide Run, Completes;
    CompletesExactly(p, s);
    if |s| <= p.contentLength {
      if |s| < p.contentLength { BodyRun(p, 0, s); } else { ChunkRun(p, 0, s); }
      NoComplete(Body, s);
    }
  }

  /** What completes a chunked body is the coding of some chunks and of their end. */
  lemma {:induction false} ReadChunks(p: Parser, s: string) returns (cs: seq<Chunk>, x: Last)
    requires p.state.ChunkSizeStart? && p.nread == 0 && Completes(p, s)
    ensures (forall c <- cs :: ChunkOk(c)) && LastOk(x) && s == EncodeBody(cs, x)
    decreases |s|
  {
    hide Step, Run, Completes, Guarded, HexDigits, LineOk, EncodeLast, Encode;
    var size, ext, r := ReadSizeLine(p, s);
    var n := Guarded(16, HexDigits(size)).value;
    RunSizeLine(p, size, ext);
    var q := Run(p, 0, size + ext + [CR, LF]).p;
    if n == 0 {
      cs := [];
      x := ReadLast(q, size, ext, r);
      assert s == EncodeLast(x) == EncodeAll([]) + EncodeLast(x);
    } else {
      var data, rest := ReadData(q, r);
      var c := Chunk(size, ext, data);
      ChunkEncoded(c, s, r, rest);
      RunChunk(p, c);
      NoComplete(Body, data);
      CompletesPast(p, Encode(c), rest);
      cs, x := ReadChunks(p.(contentLength := 0), rest);
      assert Encode(c) + (EncodeAll(cs) + EncodeLast(x)) == (Encode(c) + EncodeAll(cs)) + EncodeLast(x);
      cs := [c] + cs;
    }
  }

  lemma ChunkEncoded(c: Chunk, s: string, r: string, rest: string)
    requires s == c.size + c.ext + [CR, LF] + r && r == c.data + [CR, LF] + rest
    ensures s == Encode(c) + rest && |rest| < |s|
  {
    var line := c.size + c.ext + [CR, LF];
    assert line + (c.data + [CR, LF] + rest) == line + c.data + [CR, LF] + rest;
  }

  /** The trailer behind the last chunk: nothing comes behind its empty line. */
  lemma ReadLast(q: Parser, size: string, ext: string, r: string) returns (x: Last)
    requires q.state.HeaderFieldStart? && q.nread == 0 && q.flags.trailing && Completes(q, r)
    requires LineOk(size, ext) && Guarded(16, HexDigits(size)) == Some(0)
    ensures LastOk(x) && size + ext + [CR, LF] + r == EncodeLast(x)
  {
    hide Step, Run, Completes, Guarded, HexDigits, LineOk, LinesFit, LinesFacts, CompletesLast, PrintLines;
    FirstByte(q, r);
    LineBack(q, r[0]);
    NoTokenIsPad(r[0]);
    var ls, eol, b := ReadLines(q, r);
    x := Last(size, ext, ls, eol);
    RunTrailer(q, x);
    assert r == (PrintLines(ls) + eol) + b;
    assert (LinesAtoms(ls) + [Complete])[|LinesAtoms(ls)|] == Complete;
    if b != "" { CompletesPrefix(q, PrintLines(ls) + eol, b); }
    var line := size + ext + [CR, LF];
    assert line + (PrintLines(ls) + eol) == line + PrintLines(ls) + eol;
  }
}
