/** The limit on header bytes. */
module HeaderLimit {
  import opened Parser

  lemma StepCountsOne(p: Parser, ch: char)
    ensures var n := Step(p, ch).p.nread; n == 0 || n == Count(p).nread
  {
    if !Overflows(p) { SettleCountsOne(Count(p), ch); }
  }

  lemma {:induction false} SettleCountsOne(p: Parser, ch: char)
    ensures var n := Settle(p, ch).p.nread; n == 0 || n == p.nread
    decreases Rank(p.state)
  {
    MicroCountsOne(p, ch);
    hide Micro;
    if Micro(p, ch).next.Reexecute? { SettleCountsOne(Micro(p, ch).p, ch); }
  }

  lemma MicroCountsOne(p: Parser, ch: char)
    ensures var n := Micro(p, ch).p.nread; n == 0 || n == p.nread
  {
    if InHeaderLines(p.state) { LineCountsOne(p, ch); }
    else if InBody(p.state) { BodyCountsOne(p, ch); }
    else { RequestCountsOne(p, ch); }
  }

  lemma LineCountsOne(p: Parser, ch: char)
    requires InHeaderLines(p.state)
    ensures var n := HeaderLines(p, ch).p.nread; n == 0 || n == p.nread
  {
    hide FieldMatch, ValueMatch, PushDigit, FieldStart, LineFlags, ShouldKeepAlive;
  }

  lemma BodyCountsOne(p: Parser, ch: char)
    requires InBody(p.state)
    ensures var n := BodyPart(p, ch).p.nread; n == 0 || n == p.nread
  {
    hide PushDigit, ShouldKeepAlive;
  }

  lemma RequestCountsOne(p: Parser, ch: char)
    requires !InHeaderLines(p.state) && !InBody(p.state)
    ensures RequestLine(p, ch).p.nread == p.nread
  {
    hide ParseUrlChar, NextCandidate, FirstCandidate, Spelling;
  }

  /** A stretch of bytes read in header states without a reset of the count. */
  ghost predicate Stretch(p: Parser, data: string)
    decreases |data|
  {
    data == "" ||
    (ParsingHeader(p.state) &&
     var m := Step(p, data[0]);
     m.next.Error? || (m.p.nread > 0 && Stretch(m.p, data[1..])))
  }

  /** The header limit: such a stretch counts every byte, so it can never be longer than what is left of
      80 KiB, and if it goes that far the next byte is HPE_HEADER_OVERFLOW. */
  lemma {:induction false} LongHeaderOverflows(p: Parser, held: nat, data: string)
    requires Stretch(p, data) && p.nread <= 81920
    ensures var r := Run(p, held, data);
            && p.nread + r.used <= 81920
            && (!r.end.Error? ==> r.p.nread == p.nread + r.used)
            && (p.nread + r.used == 81920 && r.end.Error? ==> r.p.errno == HeaderOverflow)
            && (p.nread + |data| > 81920 ==> !r.end.Advance?)
    decreases |data|
  {
    if data != "" {
      StepCountsOne(p, data[0]);
      StretchStep(p, data[0]);
      hide Step;
      var m := Step(p, data[0]);
      if m.next.Advance? { LongHeaderOverflows(m.p, Hold(held, m), data[1..]); }
    }
  }

  lemma StretchStep(p: Parser, ch: char)
    requires ParsingHeader(p.state) && p.nread <= HTTP_MAX_HEADER_SIZE
    ensures p.nread == HTTP_MAX_HEADER_SIZE ==> Step(p, ch) == Stop(Count(p), HeaderOverflow)
    ensures Count(p).nread == p.nread + 1
  {
  }
}
