/** The matcher of field values equals a case-insensitive comparison with the keyword. */
module Values {
  import opened Chars
  import opened Parser
  import opened Trace
  import opened Split

  function LowerValue(v: string): (t: string)
    ensures |t| == |v| && forall i :: 0 <= i < |v| ==> t[i] == Lower(v[i])
  {
    seq(|v|, i requires 0 <= i < |v| => Lower(v[i]))
  }

  predicate Blank(s: string) {
    forall i :: 0 <= i < |s| ==> s[i] == ' '
  }

  /** v is, with bit 5 set in its bytes, the keyword, followed only by blanks. */
  predicate Lowered(v: string, word: string) {
    |v| >= |word| && LowerValue(v[..|word|]) == word && Blank(v[|word|..])
  }

  /** The state of one keyword matcher after the value bytes v. */
  function Track(v: string, word: string, matching: HeaderState, done: HeaderState): HeaderState {
    if |v| < |word| && LowerValue(v) <= word then matching
    else if Lowered(v, word) then done
    else General
  }

  /** The header state after the value bytes v of a field that means h. */
  function ValueState(h: HeaderState, v: string): HeaderState {
    if h.TransferEncoding? then Track(v, "chunked", MatchingChunked, Chunked)
    else if h.Connection? then
      if Track(v, "keep-alive", MatchingKeepAlive, KeepAlive) != General
      then Track(v, "keep-alive", MatchingKeepAlive, KeepAlive)
      else Track(v, "close", MatchingClose, Close)
    else General
  }

  lemma LowerValueSnoc(v: string, c: char)
    ensures LowerValue(v + [c]) == LowerValue(v) + [Lower(c)]
  {
  }

  lemma TrackFirst(c: char, word: string, matching: HeaderState, done: HeaderState)
    requires |word| > 1
    ensures Track([c], word, matching, done) == if Lower(c) == word[0] then matching else General
  {
    assert LowerValue([c]) == [Lower(c)];
  }

  /** One further byte, while the keyword is being matched. */
  lemma TrackMatching(v: string, c: char, word: string, matching: HeaderState, done: HeaderState)
    requires v != "" && |v| < |word| && LowerValue(v) <= word
    ensures Track(v + [c], word, matching, done) == KeywordMatch(matching, |v|, Lower(c), word, done)
  {
    hide Track, Lower;
    if Lower(c) == word[|v|] { TrackHit(v, c, word, matching, done); } else { TrackMiss(v, c, word, matching, done); }
  }

  lemma TrackHit(v: string, c: char, word: string, matching: HeaderState, done: HeaderState)
    requires |v| < |word| && LowerValue(v) <= word && Lower(c) == word[|v|]
    ensures Track(v + [c], word, matching, done) == if |v| + 1 < |word| then matching else done
  {
    hide Lower;
    LowerValueSnoc(v, c);
    var w := v + [c];
    assert LowerValue(w) == word[..|v|] + [word[|v|]] == word[..|w|];
    if |w| == |word| { assert w[..|word|] == w; }
  }

  lemma TrackMiss(v: string, c: char, word: string, matching: HeaderState, done: HeaderState)
    requires |v| < |word| && Lower(c) != word[|v|]
    ensures Track(v + [c], word, matching, done) == General
  {
    hide Lower;
    LowerValueSnoc(v, c);
    var w := v + [c];
    assert LowerValue(w)[|v|] == Lower(c);
    if |w| >= |word| { assert w[..|word|] == w; }
  }

  /** One further byte, after the keyword. */
  lemma TrackDone(v: string, c: char, word: string, matching: HeaderState, done: HeaderState)
    requires Lowered(v, word)
    ensures Track(v + [c], word, matching, done) == if c == ' ' then done else General
  {
    var w := v + [c];
    assert w[..|word|] == v[..|word|];
    assert w[|word|..] == v[|word|..] + [c];
    assert c != ' ' ==> w[|word|..][|v| - |word|] != ' ';
  }

  /** One further byte, after a mismatch. */
  lemma TrackLost(v: string, c: char, word: string, matching: HeaderState, done: HeaderState)
    requires v != "" && !(|v| < |word| && LowerValue(v) <= word) && !Lowered(v, word)
    ensures Track(v + [c], word, matching, done) == General
  {
    var w := v + [c];
    LowerValueSnoc(v, c);
    if |w| > |word| {
      assert w[..|word|] == v[..|word|];
      assert w[|word|..] == v[|word|..] + [c];
      assert forall i :: 0 <= i < |v[|word|..]| ==> w[|word|..][i] == v[|word|..][i];
    }
  }

  lemma FirstLetter(v: string, word: string, matching: HeaderState, done: HeaderState)
    requires v != "" && word != "" && Track(v, word, matching, done) != General
    ensures Lower(v[0]) == word[0]
  {
    if Lowered(v, word) { assert LowerValue(v[..|word|])[0] == Lower(v[..|word|][0]); }
    else { assert LowerValue(v)[0] == Lower(v[0]); }
  }

  lemma FirstValue(h: HeaderState, c: char)
    requires h.TransferEncoding? || h.Connection?
    ensures ValueState(h, [c]) ==
            if h.TransferEncoding? then if Lower(c) == 'c' then MatchingChunked else General
            else if Lower(c) == 'k' then MatchingKeepAlive
            else if Lower(c) == 'c' then MatchingClose else General
  {
    TrackFirst(c, "chunked", MatchingChunked, Chunked);
    TrackFirst(c, "keep-alive", MatchingKeepAlive, KeepAlive);
    TrackFirst(c, "close", MatchingClose, Close);
  }

  /** One further byte of one keyword matcher, in any of its states. */
  lemma TrackNext(v: string, c: char, word: string, matching: HeaderState, done: HeaderState)
    requires v != "" && matching != General && done != General && matching != done
    ensures var h := Track(v, word, matching, done);
            Track(v + [c], word, matching, done) ==
            if h == matching then KeywordMatch(matching, |v|, Lower(c), word, done)
            else if h == done && c == ' ' then done else General
    ensures Track(v, word, matching, done) in {matching, done, General}
    ensures Track(v, word, matching, done) == matching ==> |v| < |word|
  {
    hide KeywordMatch;
    if |v| < |word| && LowerValue(v) <= word { TrackMatching(v, c, word, matching, done); }
    else if Lowered(v, word) { TrackDone(v, c, word, matching, done); }
    else { TrackLost(v, c, word, matching, done); }
  }

  lemma NextValue(h: HeaderState, v: string, c: char)
    requires v != "" && (h.TransferEncoding? || h.Connection?)
    ensures ValueMatch(ValueState(h, v), |v|, c) == ValueState(h, v + [c])
  {
    hide KeywordMatch, Track;
    if h.TransferEncoding? {
      TrackNext(v, c, "chunked", MatchingChunked, Chunked);
    } else {
      TrackNext(v, c, "keep-alive", MatchingKeepAlive, KeepAlive);
      TrackNext(v, c, "close", MatchingClose, Close);
      OneKeyword(v);
      OneKeyword(v + [c]);
    }
  }

  lemma OneKeyword(v: string)
    requires v != ""
    ensures Track(v, "keep-alive", MatchingKeepAlive, KeepAlive) == General
            || Track(v, "close", MatchingClose, Close) == General
  {
    hide Track;
    if Track(v, "keep-alive", MatchingKeepAlive, KeepAlive) != General {
      FirstLetter(v, "keep-alive", MatchingKeepAlive, KeepAlive);
    }
    if Track(v, "close", MatchingClose, Close) != General {
      FirstLetter(v, "close", MatchingClose, Close);
    }
  }

  lemma ValueStaysGeneral(h: HeaderState, i: nat, j: nat, c: char)
    requires !ValueCounts(h)
    ensures ValueMatch(h, i, c) == ValueMatch(h, j, c) && !ValueCounts(ValueMatch(h, i, c))
  {
  }

  /** A value as the parser sees it after the leading blanks of a line. */
  predicate IsValue(v: string) {
    && v != "" && v[0] != ' ' && v[0] != '\t'
    && forall i :: 0 <= i < |v| ==> v[i] != CR && v[i] != LF
  }

  /** The parser inside a value of which the bytes v were read from q on. */
  ghost predicate Within(q: Parser, v: string, p: Parser) {
    && p == q.(nread := q.nread + |v|, state := HeaderValue, headerState := ValueState(q.headerState, v),
               flags := if q.headerState.Upgrade? then q.flags.(upgrade := true) else q.flags, index := p.index)
    && (ValueCounts(p.headerState) ==> p.index == |v| - 1)
  }

  lemma ValueStartStep(p: Parser, ch: char)
    requires p.state.HeaderValueStart? && p.nread < HTTP_MAX_HEADER_SIZE
    ensures ch == ' ' || ch == '\t' ==> Step(p, ch) == Move(p.(nread := p.nread + 1))
    ensures ch != ' ' && ch != '\t' && ch != CR && ch != LF ==>
      Step(p, ch) == AtValueFirst(p.(nread := p.nread + 1, state := HeaderValue, index := 0), ch)
  {
    hide AtValueFirst;
    assert Micro(Count(p), ch) == AtValueStart(Count(p), ch);
    NoJump(p.(nread := p.nread + 1, state := HeaderValue, index := 0), ch);
  }

  lemma NoJump(p: Parser, ch: char)
    ensures !AtValueFirst(p, ch).next.Reexecute?
  {
  }

  lemma ValueStep(p: Parser, ch: char)
    requires p.state.HeaderValue? && p.nread < HTTP_MAX_HEADER_SIZE && ch != CR && ch != LF
    requires !p.headerState.ContentLength?
    ensures var i := if ValueCounts(p.headerState) then p.index + 1 else p.index;
            Step(p, ch) == Emit(p.(nread := p.nread + 1, index := i,
                                   headerState := ValueMatch(p.headerState, i, ch)), Byte(Value, ch))
  {
    hide ValueMatch;
    assert Micro(Count(p), ch) == AtValue(Count(p), ch);
  }

  lemma {:induction false} RunValue(p: Parser, v: string)
    requires p.state.HeaderValueStart? && IsValue(v) && p.nread + |v| <= HTTP_MAX_HEADER_SIZE
    requires !p.headerState.ContentLength?
    ensures var r := Run(p, 0, v);
            && r == Result(r.p, |v|, Bytes(Value, v), |v|, Advance)
            && Within(p, v, r.p)
    decreases |v|
  {
    hide Step, Run, Track, ValueMatch, MarkOf;
    LineMarks();
    var n := |v| - 1;
    var c := v[n];
    var h := p.headerState;
    if n == 0 {
      ValueStartStep(p, c);
      if h.TransferEncoding? || h.Connection? { FirstValue(h, c); }
      RunOne(p, 0, c);
      assert v == [c];
    } else {
      var s := v[..n];
      RunValue(p, s);
      WithinGrows(p, s, Run(p, 0, s).p, c);
      RunSnoc(p, 0, s, c);
      assert v == s + [c];
      assert Bytes(Value, v) == Bytes(Value, s) + [Byte(Value, c)];
    }
  }

  lemma WithinGrows(p: Parser, s: string, q: Parser, c: char)
    requires s != "" && Within(p, s, q) && q.nread < HTTP_MAX_HEADER_SIZE && c != CR && c != LF
    requires !p.headerState.ContentLength?
    ensures q.state.HeaderValue?
    ensures Step(q, c) == Emit(Step(q, c).p, Byte(Value, c)) && Within(p, s + [c], Step(q, c).p)
  {
    hide Step, Track, ValueMatch;
    var h := p.headerState;
    NotLength(h, s);
    ValueStep(q, c);
    if !ValueCounts(q.headerState) { ValueStaysGeneral(q.headerState, q.index, |s|, c); }
    if h.TransferEncoding? || h.Connection? { NextValue(h, s, c); } else { GeneralStays(|s|, c); }
  }

  lemma NotLength(h: HeaderState, v: string)
    ensures !ValueState(h, v).ContentLength?
  {
  }

  lemma GeneralStays(i: nat, c: char)
    ensures ValueMatch(General, i, c) == General
  {
  }

  // ---------------------------------------------------------------- the end of a line

  predicate IsEol(eol: string) {
    eol == [CR, LF] || eol == [LF]
  }

  lemma ValueCr(p: Parser)
    requires p.state.HeaderValue? && p.nread < HTTP_MAX_HEADER_SIZE
    ensures Step(p, CR) == Move(p.(nread := p.nread + 1, state := HeaderAlmostDone))
  {
    assert Micro(Count(p), CR) == AtValue(Count(p), CR);
  }

  lemma ValueLf(p: Parser)
    requires p.state.HeaderValue? && p.nread < HTTP_MAX_HEADER_SIZE
    ensures Step(p, LF) == Move(p.(nread := p.nread + 1, state := HeaderValueLws,
                                   flags := LineFlags(p.flags, p.headerState)))
  {
    hide LineFlags;
    var q := Count(p).(state := HeaderAlmostDone);
    assert Micro(Count(p), LF) == Again(q, []);
    assert Micro(q, LF) == AtAlmostDone(q, LF);
    assert Settle(q, LF) == Micro(q, LF);
  }

  lemma AlmostDoneLf(p: Parser)
    requires p.state.HeaderAlmostDone? && p.nread < HTTP_MAX_HEADER_SIZE
    ensures Step(p, LF) == Move(p.(nread := p.nread + 1, state := HeaderValueLws,
                                   flags := LineFlags(p.flags, p.headerState)))
  {
    hide LineFlags;
    assert Micro(Count(p), LF) == AtAlmostDone(Count(p), LF);
  }

  /** The end of a line inside a value. */
  lemma RunValueEol(p: Parser, held: nat, eol: string)
    requires p.state.HeaderValue? && IsEol(eol) && p.nread + |eol| <= HTTP_MAX_HEADER_SIZE
    ensures Run(p, held, eol) ==
            Result(p.(nread := p.nread + |eol|, state := HeaderValueLws, flags := LineFlags(p.flags, p.headerState)),
                   |eol|, [], 0, Advance)
  {
    hide Step, Run, LineFlags;
    if eol == [LF] {
      ValueLf(p);
      RunOne(p, held, LF);
    } else {
      ValueCr(p);
      var q := p.(nread := p.nread + 1, state := HeaderAlmostDone);
      AlmostDoneLf(q);
      RunOne(p, held, CR);
      assert eol == [CR] + [LF];
      RunSnoc(p, held, [CR], LF);
    }
  }

  /** v is the keyword in any case, followed only by blanks. */
  predicate IsKeyword(v: string, word: string) {
    |v| >= |word| && (forall i | 0 <= i < |word| :: SameLetter(v[i], word[i])) && Blank(v[|word|..])
  }

  /** Setting bit 5 is a change of case on the letters, and of the bytes of a value it takes only '-' to
      '-': the other one that it does is CR. */
  lemma LowerIsCase(c: char, k: char)
    requires 'a' <= k <= 'z' || (k == '-' && c != CR)
    ensures Lower(c) == k <==> SameLetter(c, k)
  {
  }

  lemma LoweredIsKeyword(v: string, word: string)
    requires IsValue(v) && forall i | 0 <= i < |word| :: 'a' <= word[i] <= 'z' || word[i] == '-'
    ensures Lowered(v, word) <==> IsKeyword(v, word)
  {
    hide SameLetter, Lower;
    if |v| >= |word| {
      forall i | 0 <= i < |word| ensures Lower(v[i]) == word[i] <==> SameLetter(v[i], word[i]) {
        LowerIsCase(v[i], word[i]);
      }
      var t := LowerValue(v[..|word|]);
      assert forall i | 0 <= i < |word| :: t[i] == Lower(v[i]);
      assert t == word <==> forall i | 0 <= i < |word| :: t[i] == word[i];
    }
  }

  /** What the value of an unfolded line does to the flags. */
  function LineMeans(f: Flags, h: HeaderState, v: string): Flags {
    f.(chunked := f.chunked || (h.TransferEncoding? && IsKeyword(v, "chunked")),
       keepAlive := f.keepAlive || (h.Connection? && IsKeyword(v, "keep-alive")),
       close := f.close || (h.Connection? && IsKeyword(v, "close")),
       upgrade := f.upgrade || h.Upgrade?)
  }

  lemma LineFlagsExact(f: Flags, h: HeaderState, v: string)
    requires IsValue(v) && !h.ContentLength?
    ensures LineFlags(if h.Upgrade? then f.(upgrade := true) else f, ValueState(h, v)) == LineMeans(f, h, v)
  {
    hide Lowered, IsKeyword, Track;
    LoweredIsKeyword(v, "close");
    LoweredIsKeyword(v, "keep-alive");
    LoweredIsKeyword(v, "chunked");
    TrackEnds(v, "close", MatchingClose, Close);
    TrackEnds(v, "keep-alive", MatchingKeepAlive, KeepAlive);
    TrackEnds(v, "chunked", MatchingChunked, Chunked);
    OneKeyword(v);
  }

  lemma TrackEnds(v: string, word: string, matching: HeaderState, done: HeaderState)
    requires matching != General && done != General && matching != done
    ensures var h := Track(v, word, matching, done);
            (h == General || h == matching || h == done) && (h == done <==> Lowered(v, word))
  {
  }

  /** A header state that says nothing about the value to come. */
  predicate Spent(h: HeaderState) {
    !h.ContentLength? && !h.TransferEncoding? && !h.Connection? && !h.Upgrade?
  }

  lemma SpentAfter(h: HeaderState, v: string)
    ensures Spent(ValueState(h, v))
  {
    hide Lowered, LowerValue;
  }

  /** Over the value of an unfolded line (leading blanks read), chunked, keep-alive and close are set
      exactly when the value is the keyword in any case, followed only by blanks. */
  lemma ValueExact(p: Parser, v: string, eol: string)
    requires p.state.HeaderValueStart? && IsValue(v) && IsEol(eol)
    requires p.nread + |v| + |eol| <= HTTP_MAX_HEADER_SIZE && !p.headerState.ContentLength?
    ensures var r := Run(p, 0, v + eol);
            && r == Result(r.p, |v| + |eol|, Bytes(Value, v), 0, Advance)
            && r.p == p.(nread := p.nread + |v| + |eol|, state := HeaderValueLws,
                         flags := LineMeans(p.flags, p.headerState, v),
                         headerState := r.p.headerState, index := r.p.index)
            && Spent(r.p.headerState)
    ensures var f, g, h := p.flags, Run(p, 0, v + eol).p.flags, p.headerState;
            && (g.chunked <==> f.chunked || (h.TransferEncoding? && IsKeyword(v, "chunked")))
            && (g.keepAlive <==> f.keepAlive || (h.Connection? && IsKeyword(v, "keep-alive")))
            && (g.close <==> f.close || (h.Connection? && IsKeyword(v, "close")))
            && (g.upgrade <==> f.upgrade || h.Upgrade?) && g.trailing == f.trailing
  {
    hide Step, Run, ValueState, LineFlags, Lowered, IsKeyword;
    SpentAfter(p.headerState, v);
    RunValue(p, v);
    var q := Run(p, 0, v).p;
    RunValueEol(q, |v|, eol);
    RunConcat(p, 0, v, eol);
    LineFlagsExact(p.flags, p.headerState, v);
  }

  // ---------------------------------------------------------------- blanks and empty values

  predicate IsPad(s: string) {
    forall i :: 0 <= i < |s| ==> s[i] == ' ' || s[i] == '\t'
  }

  lemma {:induction false} RunPad(p: Parser, s: string)
    requires p.state.HeaderValueStart? && IsPad(s) && p.nread + |s| <= HTTP_MAX_HEADER_SIZE
    ensures Run(p, 0, s) == Result(p.(nread := p.nread + |s|), |s|, [], 0, Advance)
    decreases |s|
  {
    hide Step, Run;
    if s == "" {
      RunNothing(p, 0);
    } else {
      var n := |s| - 1;
      var q := p.(nread := p.nread + n);
      assert s == s[..n] + [s[n]];
      RunPad(p, s[..n]);
      ValueStartStep(q, s[n]);
      RunMove(p, s[..n], s[n], q, p.(nread := p.nread + |s|));
    }
  }

  lemma EmptyValueStep(p: Parser)
    requires p.state.HeaderValueStart? && p.nread < HTTP_MAX_HEADER_SIZE
    ensures var q := p.(nread := p.nread + 1, index := 0);
            && Step(p, CR) == Move(q.(headerState := General, state := HeaderAlmostDone))
            && Step(p, LF) == Move(q.(state := HeaderFieldStart))
  {
    assert Micro(Count(p), CR) == AtValueStart(Count(p), CR);
    assert Micro(Count(p), LF) == AtValueStart(Count(p), LF);
  }

  /** The end of a line with no value: it means nothing; only behind a CR can the line be continued. */
  lemma RunEmptyValue(p: Parser, eol: string)
    requires p.state.HeaderValueStart? && IsEol(eol) && p.nread + |eol| <= HTTP_MAX_HEADER_SIZE
    ensures var q := p.(nread := p.nread + |eol|, index := 0);
            Run(p, 0, eol) == Result(if eol == [LF] then q.(state := HeaderFieldStart)
                                     else q.(headerState := General, state := HeaderValueLws), |eol|, [], 0, Advance)
  {
    hide Step, Run;
    EmptyValueStep(p);
    if eol == [LF] {
      RunOne(p, 0, LF);
    } else {
      var q := p.(nread := p.nread + 1, index := 0, headerState := General, state := HeaderAlmostDone);
      AlmostDoneLf(q);
      RunOne(p, 0, CR);
      assert [CR] + [LF] == eol;
      RunSnoc(p, 0, [CR], LF);
    }
  }
}
