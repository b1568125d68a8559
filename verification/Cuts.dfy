/** Cutting a stream into calls: what it changes, and when. */
module Cuts {
  import opened Parser
  import opened Invariant
  import opened Split
  import opened BulkReads

  // ---------------------------------------------------------------- the error number

  /** A pass through the switch sets the error number if and only if it ends in an error, and never to
      the one of an empty call. */
  predicate ErrnoTells(p: Parser, m: Effect) {
    if m.next.Error? then !m.p.errno.Ok? && !m.p.errno.InvalidEofState? else m.p.errno == p.errno
  }

  lemma MicroErrno(p: Parser, ch: char)
    ensures ErrnoTells(p, Micro(p, ch))
  {
    hide ErrnoTells, HeaderLines, BodyPart, RequestLine;
    if InHeaderLines(p.state) { LineErrno(p, ch); }
    else if InBody(p.state) { BodyErrno(p, ch); }
    else { RequestErrno(p, ch); }
  }

  lemma LineErrno(p: Parser, ch: char)
    requires InHeaderLines(p.state)
    ensures ErrnoTells(p, HeaderLines(p, ch))
  {
    hide FieldMatch, ValueMatch, PushDigit, FieldStart, LineFlags, ShouldKeepAlive;
  }

  lemma BodyErrno(p: Parser, ch: char)
    requires InBody(p.state)
    ensures ErrnoTells(p, BodyPart(p, ch))
  {
    hide PushDigit, ShouldKeepAlive;
  }

  lemma RequestErrno(p: Parser, ch: char)
    requires !InHeaderLines(p.state) && !InBody(p.state)
    ensures ErrnoTells(p, RequestLine(p, ch))
  {
    hide ParseUrlChar, NextCandidate, FirstCandidate, Spelling;
  }

  lemma {:induction false} SettleErrno(p: Parser, ch: char)
    ensures ErrnoTells(p, Settle(p, ch))
    decreases Rank(p.state)
  {
    hide Micro;
    MicroErrno(p, ch);
    if Micro(p, ch).next.Reexecute? { SettleErrno(Micro(p, ch).p, ch); }
  }

  lemma StepErrno(p: Parser, ch: char)
    ensures ErrnoTells(p, Step(p, ch))
  {
    hide Settle;
    if !Overflows(p) { SettleErrno(Count(p), ch); }
  }

  lemma {:induction false} RunErrno(p: Parser, held: nat, data: string)
    requires p.errno.Ok?
    ensures var r := Run(p, held, data);
            if r.end.Error? then !r.p.errno.Ok? && !r.p.errno.InvalidEofState? else r.p.errno.Ok?
    decreases |data|
  {
    hide Step;
    if data != "" {
      StepErrno(p, data[0]);
      var m := Step(p, data[0]);
      if m.next.Advance? { RunErrno(m.p, Hold(held, m), data[1..]); }
    }
  }

  // ---------------------------------------------------------------- two calls

  /** Cutting a buffer in two: if the first call neither errs nor leaves for an upgrade, the two calls
      together end in the same parser as one call if and only if the second is not an empty call inside
      a message. Then they read the same bytes and end the same way, and unless they err they deliver
      the same merged trace; on an error, the one call may deliver less. */
  lemma SplitIndependence(p: Parser, a: string, b: string)
    requires Invoke(p, a).end.Advance?
    ensures var one := Invoke(p, a + b); var first := Invoke(p, a); var second := Invoke(first.p, b);
            && (one.p == second.p <==> b != "" || Idle(first.p.state))
            && (b != "" || Idle(first.p.state) ==>
                  && one.used == first.used + second.used && one.end == second.end
                  && one.out == first.out + second.out
                  && Delivered(one) <= Delivered(first) + Delivered(second)
                  && (!one.end.Error? ==> Delivered(one) == Delivered(first) + Delivered(second)))
  {
    hide Step, Run;
    if a == "" {
      assert a + b == b;
    } else if b == "" {
      assert a + b == a;
      RunErrno(p, 0, a);
    } else {
      RunErrno(p, 0, a);
      RunCut(p, a, b);
    }
  }

  lemma RunCut(p: Parser, a: string, b: string)
    requires Run(p, 0, a).end.Advance?
    ensures var one := Run(p, 0, a + b); var first := Run(p, 0, a); var second := Run(first.p, 0, b);
            && one.p == second.p && one.end == second.end
            && one.used == |a| + second.used
            && one.out == first.out + second.out
            && one.held <= |one.out| && second.held <= |second.out| && second.held <= one.held
            && Delivered(one) <= Delivered(first) + Delivered(second)
            && (!one.end.Error? ==> Delivered(one) == Delivered(first) + Delivered(second))
            && (one.end.Error? && second.held < one.held ==> Delivered(one) != Delivered(first) + Delivered(second))
  {
    hide Step, Run;
    var first := Run(p, 0, a);
    RunConcat(p, 0, a, b);
    RunHeld(first.p, 0, first.held, b);
    RunHeld(p, 0, 0, a + b);
    var one, second := Run(p, 0, a + b), Run(first.p, 0, b);
    assert one.out == first.out + second.out;
    if one.end.Error? {
      assert |Delivered(one)| == |one.out| - one.held && |Delivered(second)| == |second.out| - second.held;
    }
  }

  // ---------------------------------------------------------------- what an error drops

  /** A byte that is refused at once where a mark is set. */
  lemma ByteDrops(p: Parser, ch: char)
    requires MarkOf(p.state).Some? && !p.state.BodyIdentity? && !p.state.ChunkData?
    requires p.state.HeaderValue? ==> p.headerState.ContentLength?
    requires ch == if p.state.HeaderField? then '(' else if p.state.HeaderValue? then 'x' else '\t'
    ensures Step(p, ch).next.Error?
  {
    hide HeaderLines, BodyPart, RequestLine;
    if !Overflows(p) {
      if p.state.HeaderField? || p.state.HeaderValue? { LineDrops(Count(p), ch); }
      else if p.state.ChunkDataAlmostDone? { AlmostDoneDrops(Count(p)); }
      else { UrlDrops(Count(p)); }
    }
  }

  lemma LineDrops(p: Parser, ch: char)
    requires p.state.HeaderField? || (p.state.HeaderValue? && p.headerState.ContentLength?)
    requires ch == if p.state.HeaderField? then '(' else 'x'
    ensures HeaderLines(p, ch).next.Error?
  {
  }

  lemma AlmostDoneDrops(p: Parser)
    requires p.state.ChunkDataAlmostDone?
    ensures BodyPart(p, '\t').next.Error?
  {
  }

  lemma UrlDrops(p: Parser)
    requires UrlPrefix(p.state) || UrlRest(p.state)
    ensures RequestLine(p, '\t').next.Error?
  {
    assert RequestLine(p, '\t') == InUrl(p, '\t');
  }

  /** A value byte of another field than Content-Length is never refused, but for the header limit. */
  lemma ValueGoesOn(p: Parser)
    requires p.state.HeaderValue? && !p.headerState.ContentLength? && p.nread <= HTTP_MAX_HEADER_SIZE
    ensures var m := Step(p, 'x');
            if p.nread == HTTP_MAX_HEADER_SIZE then m.next.Error?
            else && m.next.Advance? && |m.out| == 1 && m.out[0].Byte? && m.p.state.HeaderValue?
                 && !m.p.headerState.ContentLength? && m.p.nread == p.nread + 1
  {
    hide RequestLine, BodyPart;
    if !Overflows(p) { assert Micro(Count(p), 'x') == AtValue(Count(p), 'x'); }
  }

  /** Bytes b on whose error the mark that is set before them is still set. */
  ghost predicate Drops(p: Parser, b: string) {
    b != "" && Run(p, 0, b).end.Error? && forall held: nat {:trigger Run(p, held, b)} ::
      Run(p, held, b).held == held + Run(p, 0, b).held
  }

  lemma OneByteDrops(p: Parser, ch: char)
    requires Step(p, ch).next.Error?
    ensures Drops(p, [ch])
  {
    hide Run, Step;
    forall held: nat ensures Run(p, held, [ch]).end.Error? && Run(p, held, [ch]).held == held {
      RunOne(p, held, ch);
    }
  }

  /** Chunk data: the rest of the chunk, and a byte that is not the CR behind it. */
  lemma ChunkDrops(p: Parser, rest: string)
    requires p.state.ChunkData? && 0 < |rest| == p.contentLength
    ensures Drops(p, rest + ['\t'])
  {
    hide Run, Step;
    var q := p.(contentLength := 0, state := ChunkDataAlmostDone);
    ByteDrops(q, '\t');
    forall held: nat
      ensures Run(p, held, rest + ['\t']).end.Error? && Run(p, held, rest + ['\t']).held == held + |rest|
    {
      ChunkRun(p, held, rest);
      RunSnoc(p, held, rest, '\t');
    }
  }

  /** The value of another field: more of it, up to the header limit. */
  lemma {:induction false} ValueDrops(p: Parser) returns (b: string)
    requires p.state.HeaderValue? && !p.headerState.ContentLength? && p.nread <= HTTP_MAX_HEADER_SIZE
    ensures Drops(p, b)
    decreases HTTP_MAX_HEADER_SIZE - p.nread
  {
    hide Run, Step, Drops;
    ValueGoesOn(p);
    if p.nread == HTTP_MAX_HEADER_SIZE {
      b := ['x'];
      OneByteDrops(p, 'x');
    } else {
      var rest := ValueDrops(Step(p, 'x').p);
      b := ['x'] + rest;
      DropsLater(p, 'x', rest);
    }
  }

  lemma DropsLater(p: Parser, ch: char, rest: string)
    requires var m := Step(p, ch);
             && m.next.Advance? && |m.out| == 1 && m.out[0].Byte? && MarkOf(m.p.state).Some? && Drops(m.p, rest)
    ensures Drops(p, [ch] + rest)
  {
    hide Run, Step, MarkOf;
    var q := Step(p, ch).p;
    forall held: nat
      ensures Run(p, held, [ch] + rest).end.Error?
      ensures Run(p, held, [ch] + rest).held == held + 1 + Run(q, 0, rest).held
    {
      RunOne(p, held, ch);
      RunConcat(p, held, [ch], rest);
      RunHeld(q, 0, held + 1, rest);
      assert Run(q, held + 1, rest).held == held + 1 + Run(q, 0, rest).held;
    }
  }

  lemma SomethingDrops(p: Parser) returns (b: string)
    requires Inv(p) && MarkOf(p.state).Some? && !p.state.BodyIdentity?
    ensures Drops(p, b)
  {
    hide Run, Drops, Step;
    if p.state.ChunkData? {
      var rest: string := seq(p.contentLength, _ => 'x');
      b := rest + ['\t'];
      ChunkDrops(p, rest);
    } else if p.state.HeaderValue? && !p.headerState.ContentLength? {
      b := ValueDrops(p);
    } else {
      var ch := if p.state.HeaderField? then '(' else if p.state.HeaderValue? then 'x' else '\t';
      b := [ch];
      ByteDrops(p, ch);
      OneByteDrops(p, ch);
    }
  }

  /** In an identity body no byte is refused, and behind it the mark is no longer set. */
  lemma IdentityDropsNothing(p: Parser, held: nat, b: string)
    requires p.state.BodyIdentity? && 0 < p.contentLength
    ensures Run(p, held, b).end.Error? ==> Run(p, held, b).held == Run(p, 0, b).held
  {
    hide Run;
    var n := p.contentLength;
    if |b| < n {
      BodyRun(p, held, b);
    } else {
      IdentityRun(p, held, b[..n]);
      IdentityRun(p, 0, b[..n]);
      RunConcat(p, held, b[..n], b[n..]);
      RunConcat(p, 0, b[..n], b[n..]);
      assert b[..n] + b[n..] == b;
    }
  }

  /** The two calls deliver what the one call delivers. */
  ghost predicate SameEvents(p: Parser, a: string, b: string) {
    Delivered(Invoke(p, a + b)) == Delivered(Invoke(p, a)) + Delivered(Invoke(Invoke(p, a).p, b))
  }

  /** A cut is harmless whatever follows if and only if the first call ends with nothing behind a mark, or
      inside an identity body. */
  lemma HarmlessCut(p: Parser, a: string)
    requires Inv(p) && a != "" && Invoke(p, a).end.Advance?
    ensures (forall b | b != "" :: SameEvents(p, a, b)) <==>
            Invoke(p, a).held == 0 || Invoke(p, a).p.state.BodyIdentity?
  {
    hide Run, Inv, MarkOf, Drops, SameEvents;
    var first := Run(p, 0, a);
    assert p.errno.Ok? by { SoundParts(p); }
    RunKeepsInv(p, 0, a);
    SoundParts(first.p);
    if first.held == 0 || first.p.state.BodyIdentity? {
      forall b | b != "" ensures SameEvents(p, a, b) {
        CutKeepsEvents(p, a, b);
      }
    } else {
      UnmarkedHoldsNothing(p, 0, a);
      var b := SomethingDrops(first.p);
      CutDropsEvents(p, a, b);
    }
  }

  lemma SoundParts(p: Parser)
    requires Inv(p)
    ensures p.errno.Ok? && (p.state.BodyIdentity? ==> 0 < p.contentLength)
  {
  }

  lemma CutKeepsEvents(p: Parser, a: string, b: string)
    requires var first := Run(p, 0, a);
             && p.errno.Ok? && a != "" && b != "" && first.end.Advance? && first.p.errno.Ok?
             && (first.held == 0 || (first.p.state.BodyIdentity? && 0 < first.p.contentLength))
    ensures SameEvents(p, a, b)
  {
    hide Run;
    var first := Run(p, 0, a);
    RunCut(p, a, b);
    RunConcat(p, 0, a, b);
    if first.held > 0 { IdentityDropsNothing(first.p, first.held, b); }
    var one, second := Run(p, 0, a + b), Run(first.p, 0, b);
    if one.end.Error? {
      assert one.held == second.held;
      assert one.out[..|one.out| - one.held] == first.out + second.out[..|second.out| - second.held];
    }
  }

  lemma CutDropsEvents(p: Parser, a: string, b: string)
    requires var first := Run(p, 0, a);
             && p.errno.Ok? && a != "" && first.end.Advance? && first.p.errno.Ok? && first.held > 0
             && Drops(first.p, b)
    ensures b != "" && !SameEvents(p, a, b)
  {
    hide Run;
    var first := Run(p, 0, a);
    RunCut(p, a, b);
    RunConcat(p, 0, a, b);
    assert Run(first.p, first.held, b).held == first.held + Run(first.p, 0, b).held;
  }

  // ---------------------------------------------------------------- any number of calls

  /** A sequence of calls, one per piece, that stops at an error or an upgrade. */
  function Calls(p: Parser, pieces: seq<string>): (r: Result)
    decreases |pieces|
  {
    if pieces == [] then Result(p, 0, [], 0, Advance) else
    var first := Invoke(p, pieces[0]);
    if first.end.Advance? then
      var rest := Calls(first.p, pieces[1..]);
      Result(rest.p, first.used + rest.used, Delivered(first) + rest.out, 0, rest.end)
    else Result(first.p, first.used, Delivered(first), 0, first.end)
  }

  function Concat(pieces: seq<string>): string
    decreases |pieces|
  {
    if pieces == [] then "" else pieces[0] + Concat(pieces[1..])
  }

  /** No call is empty inside a message; what comes behind an error or an upgrade does not matter. */
  predicate NoEarlyEnd(p: Parser, pieces: seq<string>)
    decreases |pieces|
  {
    pieces == [] ||
    ((pieces[0] != "" || Idle(p.state)) &&
     var first := Run(p, 0, pieces[0]);
     (first.end.Advance? ==> NoEarlyEnd(first.p, pieces[1..])))
  }

  /** In particular if no call is empty at all. */
  lemma {:induction false} NonemptyPieces(p: Parser, pieces: seq<string>)
    requires forall s <- pieces :: s != ""
    ensures NoEarlyEnd(p, pieces)
    decreases |pieces|
  {
    hide Run;
    if pieces != [] {
      assert pieces[0] in pieces && forall s <- pieces[1..] :: s in pieces;
      NonemptyPieces(Run(p, 0, pieces[0]).p, pieces[1..]);
    }
  }

  /** Any number of cuts: a way of cutting a stream into calls gives the parser of the uncut stream if and
      only if no call is empty inside a message. Then it gives the same number of bytes read, the same
      ending and, unless that is an error, the same trace. */
  lemma {:induction false} AnySplit(p: Parser, pieces: seq<string>)
    requires p.errno.Ok?
    ensures var one := Run(p, 0, Concat(pieces)); var many := Calls(p, pieces);
            && (one.p == many.p <==> NoEarlyEnd(p, pieces))
            && (NoEarlyEnd(p, pieces) ==>
                  && one.used == many.used && one.end == many.end
                  && (!one.end.Error? ==> Delivered(one) == many.out)
                  && Delivered(one) <= many.out)
    decreases |pieces|
  {
    hide Step, Run;
    RunErrno(p, 0, Concat(pieces));
    if pieces == [] {
      RunNothing(p, 0);
    } else {
      RunErrno(p, 0, pieces[0]);
      RunNothing(p, 0);
      var first := Run(p, 0, pieces[0]);
      if first.end.Advance? {
        RunCut(p, pieces[0], Concat(pieces[1..]));
        AnySplit(first.p, pieces[1..]);
      } else {
        RunConcat(p, 0, pieces[0], Concat(pieces[1..]));
      }
    }
  }
}
