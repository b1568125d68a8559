/** Bytes that complete a message, read from the front: what one can say of them without knowing yet what
    they print. */
module Completions {
  import opened Chars
  import opened Parser
  import opened Split
  import opened Framing

  /** The bytes s take p, without an error, to a `message_complete` with their last byte and not before. */
  ghost predicate Completes(p: Parser, s: string)
    decreases |s|
  {
    s != "" &&
    var m := Step(p, s[0]);
    if |s| == 1 then !m.next.Error? && Complete in m.out
    else m.next.Advance? && Complete !in m.out && Completes(m.p, s[1..])
  }

  /** The same about the whole run. */
  lemma {:induction false} CompletesExactly(p: Parser, s: string)
    ensures Completes(p, s) <==> CompletesLast(p, s) && !Run(p, 0, s).end.Error? && Complete in Run(p, 0, s).out
    decreases |s|
  {
    hide Step;
    if s == "" { return; }
    var m := Step(p, s[0]);
    if |s| == 1 {
      RunNothing(p, 0);
      assert s[..0] == "" && s == [s[0]];
      RunOne(p, 0, s[0]);
    } else {
      var t, front := s[1..], s[..|s| - 1];
      assert front[0] == s[0] && front[1..] == t[..|t| - 1];
      if m.next.Advance? {
        CompletesExactly(m.p, t);
        RunHeld(m.p, 0, Hold(0, m), t);
        RunHeld(m.p, 0, Hold(0, m), t[..|t| - 1]);
      }
    }
  }

  /** A first stretch of such bytes that is not all of them. */
  lemma {:induction false} CompletesPrefix(p: Parser, a: string, b: string)
    requires Completes(p, a + b) && b != ""
    ensures var r := Run(p, 0, a); r.end.Advance? && Complete !in r.out && Completes(r.p, b)
    decreases |a|
  {
    hide Step;
    if a == "" {
      assert a + b == b;
    } else {
      var m := Step(p, a[0]);
      assert (a + b)[0] == a[0] && (a + b)[1..] == a[1..] + b;
      CompletesPrefix(m.p, a[1..], b);
      RunHeld(m.p, 0, Hold(0, m), a[1..]);
    }
  }

  /** A first stretch that completes nothing is not all of them. */
  lemma CompletesPast(p: Parser, a: string, b: string)
    requires Completes(p, a + b) && Complete !in Run(p, 0, a).out
    ensures b != "" && Run(p, 0, a).end.Advance? && Completes(Run(p, 0, a).p, b)
  {
    hide Run, Step;
    if b == "" {
      assert a + b == a;
      CompletesExactly(p, a);
    } else {
      CompletesPrefix(p, a, b);
    }
  }

  /** A first byte that completes nothing. */
  lemma CompletesStep(p: Parser, s: string)
    requires Completes(p, s) && Complete !in Step(p, s[0]).out
    ensures |s| > 1 && Step(p, s[0]).next.Advance? && Completes(Step(p, s[0]).p, s[1..])
  {
    hide Step;
  }

  lemma FirstByte(p: Parser, s: string)
    requires Completes(p, s)
    ensures s != "" && !Step(p, s[0]).next.Error?
  {
    hide Step;
  }

  lemma NotFull(p: Parser, s: string)
    requires Completes(p, s) && ParsingHeader(p.state)
    ensures s != "" && p.nread < HTTP_MAX_HEADER_SIZE && !Step(p, s[0]).next.Error?
  {
    hide Settle;
  }

  // ---------------------------------------------------------------- stretches of like bytes

  /** The parts of a request in which the parser stays as long as certain bytes come. */
  datatype Zone = Lead | Gap | Target | VersionGap | Major | Minor | FieldName | Pad | Number | Text | Size | Extension

  predicate At(z: Zone, p: Parser) {
    match z
    case Lead => p.state.StartReq?
    case Gap => p.state.ReqSpacesBeforeUrl?
    case Target => UrlPrefix(p.state) || UrlRest(p.state)
    case VersionGap => p.state.ReqHttpStart?
    case Major => p.state.ReqHttpMajor?
    case Minor => p.state.ReqHttpMinor?
    case FieldName => p.state.HeaderField?
    case Pad => p.state.HeaderValueStart?
    case Number => p.state.HeaderValue? && p.headerState.ContentLength?
    case Text => p.state.HeaderValue? && !p.headerState.ContentLength?
    case Size => p.state.ChunkSize?
    case Extension => p.state.ChunkParameters?
  }

  predicate Of(z: Zone, ch: char) {
    match z
    case Lead => ch == CR || ch == LF
    case Gap => ch == ' '
    case Target => ch != ' ' && ch != CR && ch != LF
    case VersionGap => ch == ' '
    case Major => IsNum(ch)
    case Minor => IsNum(ch)
    case FieldName => Token(ch) != '\0'
    case Pad => ch == ' ' || ch == '\t'
    case Number => IsNum(ch) || ch == ' '
    case Text => ch != CR && ch != LF
    case Size => Unhex(ch) != -1
    case Extension => ch != CR
  }

  /** A byte that keeps the parser in its zone, counted and completing nothing. */
  ghost predicate Stays(z: Zone, p: Parser, m: Effect) {
    m.next.Error? || (m.next.Advance? && At(z, m.p) && m.p.nread == p.nread && Complete !in m.out)
  }

  lemma ZoneStep(z: Zone, p: Parser, ch: char)
    requires At(z, p) && Of(z, ch) && !Step(p, ch).next.Error?
    ensures var m := Step(p, ch);
            && p.nread < HTTP_MAX_HEADER_SIZE && m.next.Advance? && At(z, m.p) && m.p.nread == p.nread + 1
            && Complete !in m.out
  {
    hide At, Of, Micro;
    Counted(z, p);
    ZoneStays(z, Count(p), ch);
  }

  lemma Counted(z: Zone, p: Parser)
    requires At(z, p)
    ensures ParsingHeader(p.state) && At(z, Count(p))
  {
  }

  lemma ZoneStays(z: Zone, p: Parser, ch: char)
    requires At(z, p) && Of(z, ch)
    ensures !Micro(p, ch).next.Reexecute? && Stays(z, p, Micro(p, ch))
  {
    hide Stays, HeaderLines, BodyPart, RequestLine, At, Of;
    match z
    case Lead => LeadStays(p, ch);
    case Gap => GapStays(p, ch);
    case Target => TargetStays(p, ch);
    case VersionGap => GapStays(p, ch);
    case Major => VersionStays(p, ch);
    case Minor => VersionStays(p, ch);
    case FieldName => NameStays(p, ch);
    case Pad => NameStays(p, ch);
    case Number => ValueStays(p, ch);
    case Text => ValueStays(p, ch);
    case Size => ChunkStays(p, ch);
    case Extension => ChunkStays(p, ch);
  }

  lemma LeadStays(p: Parser, ch: char)
    ensures At(Lead, p) && Of(Lead, ch) ==> Micro(p, ch) == Move(p) && Stays(Lead, p, Micro(p, ch))
  {
  }

  lemma GapStays(p: Parser, ch: char)
    ensures At(Gap, p) && Of(Gap, ch) ==> Micro(p, ch) == Move(p) && Stays(Gap, p, Micro(p, ch))
    ensures At(VersionGap, p) && Of(VersionGap, ch) ==> Micro(p, ch) == Move(p) && Stays(VersionGap, p, Micro(p, ch))
  {
  }

  lemma TargetStays(p: Parser, ch: char)
    requires At(Target, p) && Of(Target, ch)
    ensures !Micro(p, ch).next.Reexecute? && Stays(Target, p, Micro(p, ch))
  {
    hide ParseUrlChar;
    UrlCharStates(p.state, ch);
    assert Micro(p, ch) == InUrl(p, ch);
  }

  lemma VersionStays(p: Parser, ch: char)
    ensures At(Major, p) && Of(Major, ch) ==> !Micro(p, ch).next.Reexecute? && Stays(Major, p, Micro(p, ch))
    ensures At(Minor, p) && Of(Minor, ch) ==> !Micro(p, ch).next.Reexecute? && Stays(Minor, p, Micro(p, ch))
  {
  }

  lemma NameStays(p: Parser, ch: char)
    ensures At(FieldName, p) && Of(FieldName, ch) ==>
            !Micro(p, ch).next.Reexecute? && Stays(FieldName, p, Micro(p, ch))
    ensures At(Pad, p) && Of(Pad, ch) ==> !Micro(p, ch).next.Reexecute? && Stays(Pad, p, Micro(p, ch))
  {
    hide FieldMatch;
  }

  lemma ValueStays(p: Parser, ch: char)
    ensures At(Number, p) && Of(Number, ch) ==> !Micro(p, ch).next.Reexecute? && Stays(Number, p, Micro(p, ch))
    ensures At(Text, p) && Of(Text, ch) ==> !Micro(p, ch).next.Reexecute? && Stays(Text, p, Micro(p, ch))
  {
    hide PushDigit;
  }

  lemma ChunkStays(p: Parser, ch: char)
    ensures At(Size, p) && Of(Size, ch) ==> !Micro(p, ch).next.Reexecute? && Stays(Size, p, Micro(p, ch))
    ensures At(Extension, p) && Of(Extension, ch) ==>
            !Micro(p, ch).next.Reexecute? && Stays(Extension, p, Micro(p, ch))
  {
    hide PushDigit;
  }

  /** The longest stretch of bytes of a zone: it does not go on to the end, and its bytes are counted. */
  lemma {:induction false} Take(z: Zone, p: Parser, s: string) returns (k: nat)
    requires At(z, p) && Completes(p, s) && p.nread <= HTTP_MAX_HEADER_SIZE
    ensures k < |s| && !Of(z, s[k]) && (forall i | 0 <= i < k :: Of(z, s[i]))
    ensures p.nread + k <= HTTP_MAX_HEADER_SIZE
    decreases |s|
  {
    hide At, Of, Step;
    k := 0;
    if Of(z, s[0]) {
      ZoneStep(z, p, s[0]);
      CompletesStep(p, s);
      k := Take(z, Step(p, s[0]).p, s[1..]);
      k := k + 1;
      forall i | 0 <= i < k ensures Of(z, s[i]) {
        if i > 0 { assert s[i] == s[1..][i - 1]; }
      }
    }
  }

  /** The same as two strings: the stretch, and what comes behind it. */
  lemma Divide(z: Zone, p: Parser, s: string) returns (a: string, b: string)
    requires At(z, p) && Completes(p, s) && p.nread <= HTTP_MAX_HEADER_SIZE
    ensures s == a + b && (forall i | 0 <= i < |a| :: Of(z, a[i])) && b != "" && !Of(z, b[0])
    ensures p.nread + |a| <= HTTP_MAX_HEADER_SIZE && Run(p, 0, a).end.Advance? && Completes(Run(p, 0, a).p, b)
  {
    hide At, Of, Run, Completes;
    var k := Take(z, p, s);
    a, b := s[..k], s[k..];
    assert s == a + b;
    CompletesPrefix(p, a, b);
  }
}
