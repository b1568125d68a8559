/** The bytes that the C code skips in bulk, read one at a time. */
module BulkReads {
  import opened Parser
  import opened Trace
  import opened Sinks
  import opened Split

  /** Body bytes short of the remaining length. */
  lemma {:induction false} BodyRun(p: Parser, held: nat, s: string)
    requires Bulk(p.state) && |s| < p.contentLength
    ensures Run(p, held, s) ==
            Result(p.(contentLength := p.contentLength - |s|), |s|, Bytes(Body, s), held + |s|, Advance)
    decreases |s|
  {
    hide Step;
    if s == [] {
      assert Bytes(Body, s) == [];
    } else {
      var m := Step(p, s[0]);
      BodyStep(p, s[0]);
      BodyRun(m.p, held + 1, s[1..]);
      assert Bytes(Body, s) == m.out + Bytes(Body, s[1..]);
    }
  }

  /** Body bytes up to the end of a body with a known length. */
  lemma IdentityRun(p: Parser, held: nat, s: string)
    requires p.state.BodyIdentity? && 0 < |s| == p.contentLength
    ensures Run(p, held, s) ==
            Result(p.(contentLength := 0, state := NewMessage(p)), |s|, Bytes(Body, s) + [Complete], 0, Advance)
  {
    hide Run;
    LastRun(p, held, s);
  }

  /** Body bytes up to the end of a chunk. */
  lemma ChunkRun(p: Parser, held: nat, s: string)
    requires p.state.ChunkData? && 0 < |s| == p.contentLength
    ensures Run(p, held, s) ==
            Result(p.(contentLength := 0, state := ChunkDataAlmostDone), |s|, Bytes(Body, s), held + |s|, Advance)
  {
    hide Run;
    LastRun(p, held, s);
  }

  lemma LastRun(p: Parser, held: nat, s: string)
    requires Bulk(p.state) && 0 < |s| == p.contentLength
    ensures Run(p, held, s) ==
            if p.state.ChunkData? then
              Result(p.(contentLength := 0, state := ChunkDataAlmostDone), |s|, Bytes(Body, s), held + |s|, Advance)
            else
              Result(p.(contentLength := 0, state := NewMessage(p)), |s|, Bytes(Body, s) + [Complete], 0, Advance)
  {
    hide Step, Run;
    var n := |s| - 1;
    assert s == s[..n] + [s[n]];
    assert Bytes(Body, s) == Bytes(Body, s[..n]) + [Byte(Body, s[n])];
    BodyRun(p, held, s[..n]);
    RunConcat(p, held, s[..n], [s[n]]);
    var q := p.(contentLength := 1);
    LastStep(q, s[n]);
    RunOne(q, held + n, s[n]);
  }

  lemma BodyStep(p: Parser, ch: char)
    requires Bulk(p.state) && p.contentLength > 1
    ensures Step(p, ch) == Emit(p.(contentLength := p.contentLength - 1), Byte(Body, ch))
  {
  }

  lemma LastStep(p: Parser, ch: char)
    requires Bulk(p.state) && p.contentLength == 1
    ensures Step(p, ch) ==
            if p.state.ChunkData? then
              Emit(p.(contentLength := 0, state := ChunkDataAlmostDone), Byte(Body, ch))
            else
              Effect(p.(contentLength := 0, state := NewMessage(p)), Advance, [Byte(Body, ch), Complete])
  {
    if p.state.BodyIdentity? {
      var q := p.(contentLength := 0, state := MessageDone);
      assert Micro(p, ch) == Again(q, [Byte(Body, ch)]);
      assert Settle(q, ch) == EndMessage(q);
    }
  }
}
