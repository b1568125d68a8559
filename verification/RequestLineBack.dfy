/** Whatever the parser takes for a request line is one: method, blanks, target, version. */
module RequestLinesBack {
  import opened Chars
  import opened Parser
  import opened Invariant
  import opened Methods
  import opened Values
  import opened Urls
  import opened RequestLines
  import opened Completions

  // ---------------------------------------------------------------- the method

  /** The rest of a method of which the bytes w have been read. */
  lemma {:induction false} ReadMethodRest(p: Parser, w: string, s: string) returns (m: Method, a: string, b: string)
    requires p.state.ReqMethod? && w != "" && Agrees(w, p.verb) && p.index == |w|
    requires Completes(p, s) && p.nread <= HTTP_MAX_HEADER_SIZE
    ensures s == a + ([' '] + b) && w + a == OnWire(m) && p.nread + |a| + 1 <= HTTP_MAX_HEADER_SIZE
    decreases |s|
  {
    hide Step, OnWire, Agrees, Spelling, Accepts, Continue;
    NotFull(p, s);
    MethodStep(p, s[0]);
    CompletesStep(p, s);
    if Accepts(p.verb, p.index, s[0]) {
      m, a, b := p.verb, "", s[1..];
      AcceptedWhole(w, m, s[0]);
      assert w + a == w && a + ([' '] + b) == s;
    } else {
      ContinueAgrees(w, p.verb, s[0]);
      m, a, b := ReadMethodRest(Step(p, s[0]).p, w + [s[0]], s[1..]);
      assert w + [s[0]] + a == w + ([s[0]] + a);
      a := [s[0]] + a;
    }
  }

  lemma AcceptedWhole(w: string, m: Method, ch: char)
    requires Agrees(w, m) && Accepts(m, |w|, ch)
    ensures w == OnWire(m) && ch == ' '
  {
    hide Spelling, OnWire;
    WireTail(m, |w|);
  }

  lemma ReadMethod(p: Parser, s: string) returns (m: Method, b: string)
    requires p.state.StartReq? && Completes(p, s) && p.nread <= HTTP_MAX_HEADER_SIZE && s[0] != CR && s[0] != LF
    ensures s == OnWire(m) + " " + b && p.nread + |OnWire(m)| + 1 <= HTTP_MAX_HEADER_SIZE
  {
    hide Step, OnWire, Agrees, FirstCandidate;
    NotFull(p, s);
    StartStep(p, s[0]);
    CompletesStep(p, s);
    FirstAgrees(s[0]);
    var a;
    m, a, b := ReadMethodRest(Step(p, s[0]).p, [s[0]], s[1..]);
    assert s == [s[0]] + a + " " + b;
  }

  // ---------------------------------------------------------------- the target

  lemma FirstUrlByte(p: Parser, ch: char)
    requires p.state.ReqSpacesBeforeUrl? && ch != ' ' && !Step(p, ch).next.Error?
    ensures p.nread < HTTP_MAX_HEADER_SIZE && !ParseUrlChar(PassState(p.verb, ""), ch).Dead?
  {
    hide ParseUrlChar, PassState;
    PassStart(p.verb);
    assert Micro(Count(p), ch) == AtReqSpaces(Count(p), ch);
  }

  lemma UrlByteBack(p: Parser, ch: char)
    requires (UrlPrefix(p.state) || UrlRest(p.state)) && !Step(p, ch).next.Error?
    ensures p.nread < HTTP_MAX_HEADER_SIZE
    ensures if ch == ' ' || ch == CR || ch == LF then UrlRest(p.state) else !ParseUrlChar(p.state, ch).Dead?
  {
    hide ParseUrlChar;
    assert Micro(Count(p), ch) == InUrl(Count(p), ch);
  }

  /** A target behind which something still comes does not drive the URL machine into s_dead. */
  lemma {:induction false} TargetLives(p: Parser, t: string, b: string)
    requires p.state.ReqSpacesBeforeUrl? && Completes(p, t + b) && t != "" && t[0] != ' ' && b != ""
    requires forall i | 0 < i < |t| :: Of(Target, t[i])
    requires p.nread + |t| <= HTTP_MAX_HEADER_SIZE
    ensures !PassState(p.verb, t).Dead?
    decreases |t|
  {
    hide Step, Run, ParseUrlChar, PassState, UrlPrefix, UrlRest, Completes;
    var n := |t| - 1;
    var u, c := t[..n], t[n];
    var rest := [c] + b;
    assert t == u + [c] && t + b == u + rest;
    PassOn(p.verb, u, c);
    PassStart(p.verb);
    if n == 0 {
      assert u == "" && (t + b)[0] == c;
      FirstByte(p, t + b);
      FirstUrlByte(p, c);
    } else {
      TargetLives(p, u, rest);
      RunTarget(p, u);
      CompletesPrefix(p, u, rest);
      var q := Run(p, 0, u).p;
      FirstByte(q, rest);
      UrlByteBack(q, c);
    }
  }

  lemma ReadTarget(p: Parser, s: string) returns (t: string, b: string)
    requires p.state.ReqSpacesBeforeUrl? && Completes(p, s) && p.nread <= HTTP_MAX_HEADER_SIZE && s[0] != ' '
    ensures s == t + b && TargetOk(p.verb, t) && b != "" && (b[0] == ' ' || b[0] == CR || b[0] == LF)
    ensures p.nread + |t| <= HTTP_MAX_HEADER_SIZE
  {
    hide Step, Run, ParseUrlChar, PassState, UrlPrefix, UrlRest, Completes;
    FirstByte(p, s);
    FirstUrlByte(p, s[0]);
    FirstUrlStep(p, s[0]);
    CompletesStep(p, s);
    PassStart(p.verb);
    UrlCharStates(PassState(p.verb, ""), s[0]);
    var a;
    a, b := Divide(Target, Step(p, s[0]).p, s[1..]);
    t := [s[0]] + a;
    assert s == t + b;
    forall i | 0 < i < |t| ensures Of(Target, t[i]) {
      assert t[i] == a[i - 1];
    }
    TargetLives(p, t, b);
    RunTarget(p, t);
    CompletesPrefix(p, t, b);
    FirstByte(Run(p, 0, t).p, b);
    UrlByteBack(Run(p, 0, t).p, b[0]);
  }

  // ---------------------------------------------------------------- the version

  /** What a byte of the version can be where the parser does not refuse it. */
  lemma VersionBack(p: Parser, ch: char)
    requires InVersion(p.state) && !Step(p, ch).next.Error?
    ensures p.nread < HTTP_MAX_HEADER_SIZE && Step(p, ch).next.Advance? && Step(p, ch).out == []
    ensures p.state.ReqHttpStart? ==> ch == ' ' || ch == 'H'
    ensures p.state.ReqFirstHttpMajor? ==> '1' <= ch <= '9'
    ensures p.state.ReqHttpMajor? ==> ch == '.' || (IsNum(ch) && p.httpMajor * 10 + Digit(ch) <= 999)
    ensures p.state.ReqFirstHttpMinor? ==> IsNum(ch)
    ensures p.state.ReqHttpMinor? ==> ch == CR || ch == LF || (IsNum(ch) && p.httpMinor * 10 + Digit(ch) <= 999)
    ensures p.state.ReqLineAlmostDone? ==> ch == LF
    ensures InHttp(p.state) ==> ch == Await(p.state)[0]
  {
    hide HeaderLines, BodyPart;
    assert Micro(Count(p), ch) == RequestLine(Count(p), ch);
  }

  /** What must follow an 'H'. */
  function Await(s: State): string {
    match s
    case ReqHttpH => "TTP/" case ReqHttpHT => "TP/" case ReqHttpHTT => "P/" case ReqHttpHTTP => "/"
    case _ => ""
  }

  lemma {:induction false} ReadHttpRest(p: Parser, s: string)
    requires InHttp(p.state) && Completes(p, s)
    ensures Await(p.state) <= s && p.nread + |Await(p.state)| <= HTTP_MAX_HEADER_SIZE
    decreases |Await(p.state)|
  {
    hide Step, Completes;
    FirstByte(p, s);
    VersionBack(p, s[0]);
    VersionStep(p, s[0]);
    CompletesStep(p, s);
    if !p.state.ReqHttpHTTP? { ReadHttpRest(Step(p, s[0]).p, s[1..]); }
  }

  lemma ReadHttp(p: Parser, s: string) returns (b: string)
    requires p.state.ReqHttpStart? && Completes(p, s) && s[0] != ' '
    ensures s == "HTTP/" + b && p.nread + 5 <= HTTP_MAX_HEADER_SIZE
  {
    hide Step, Completes;
    FirstByte(p, s);
    VersionBack(p, s[0]);
    VersionStep(p, s[0]);
    CompletesStep(p, s);
    ReadHttpRest(Step(p, s[0]).p, s[1..]);
    b := s[5..];
    assert s[1..][..4] == "TTP/" && s == [s[0]] + s[1..][..4] + b && "HTTP/" == ['H'] + "TTP/";
  }

  lemma {:induction false} MajorFits(p: Parser, s: string, b: string)
    requires p.state.ReqFirstHttpMajor? && Completes(p, s + b) && s != "" && AllNum(s) && s[0] != '0' && b != ""
    requires p.nread + |s| <= HTTP_MAX_HEADER_SIZE
    ensures Decimal(s) <= 999
    decreases |s|
  {
    hide Step, Run, Completes, Digit;
    var n := |s| - 1;
    Snoc(s);
    DecimalSnoc(s[..n], s[n]);
    if n == 0 {
      assert s[..n] == "";
    } else {
      var rest := [s[n]] + b;
      assert s + b == s[..n] + rest;
      MajorFits(p, s[..n], rest);
      RunMajor(p, s[..n]);
      CompletesPrefix(p, s[..n], rest);
      FirstByte(Run(p, 0, s[..n]).p, rest);
      VersionBack(Run(p, 0, s[..n]).p, s[n]);
    }
  }

  lemma {:induction false} MinorFits(p: Parser, s: string, b: string)
    requires p.state.ReqFirstHttpMinor? && Completes(p, s + b) && s != "" && AllNum(s) && b != ""
    requires p.nread + |s| <= HTTP_MAX_HEADER_SIZE
    ensures Decimal(s) <= 999
    decreases |s|
  {
    hide Step, Run, Completes, Digit;
    var n := |s| - 1;
    Snoc(s);
    DecimalSnoc(s[..n], s[n]);
    if n == 0 {
      assert s[..n] == "";
    } else {
      var rest := [s[n]] + b;
      assert s + b == s[..n] + rest;
      MinorFits(p, s[..n], rest);
      RunMinor(p, s[..n]);
      CompletesPrefix(p, s[..n], rest);
      FirstByte(Run(p, 0, s[..n]).p, rest);
      VersionBack(Run(p, 0, s[..n]).p, s[n]);
    }
  }

  lemma ReadMajor(p: Parser, s: string) returns (a: string, b: string)
    requires p.state.ReqFirstHttpMajor? && Completes(p, s)
    ensures s == a + (['.'] + b) && a != "" && a[0] != '0' && AllNum(a) && Decimal(a) <= 999
    ensures p.nread + |a| + 1 <= HTTP_MAX_HEADER_SIZE
  {
    hide Step, Run, Completes, Decimal;
    FirstByte(p, s);
    VersionBack(p, s[0]);
    MajorStep(p, s[0]);
    CompletesStep(p, s);
    var more, rest := Divide(Major, Step(p, s[0]).p, s[1..]);
    a, b := [s[0]] + more, rest[1..];
    assert s == a + rest && rest == [rest[0]] + b;
    forall i | 0 <= i < |a| ensures IsNum(a[i]) {
      if i > 0 { assert a[i] == more[i - 1] && Of(Major, more[i - 1]); }
    }
    MajorFits(p, a, rest);
    RunMajor(p, a);
    CompletesPrefix(p, a, rest);
    FirstByte(Run(p, 0, a).p, rest);
    VersionBack(Run(p, 0, a).p, rest[0]);
  }

  lemma ReadMinor(p: Parser, s: string) returns (a: string, b: string)
    requires p.state.ReqFirstHttpMinor? && Completes(p, s)
    ensures s == a + b && a != "" && AllNum(a) && Decimal(a) <= 999 && b != "" && (b[0] == CR || b[0] == LF)
    ensures p.nread + |a| <= HTTP_MAX_HEADER_SIZE
  {
    hide Step, Run, Completes, Decimal;
    FirstByte(p, s);
    VersionBack(p, s[0]);
    MinorStep(p, s[0]);
    CompletesStep(p, s);
    var more;
    more, b := Divide(Minor, Step(p, s[0]).p, s[1..]);
    a := [s[0]] + more;
    assert s == a + b;
    forall i | 0 <= i < |a| ensures IsNum(a[i]) {
      if i > 0 { assert a[i] == more[i - 1] && Of(Minor, more[i - 1]); }
    }
    MinorFits(p, a, b);
    RunMinor(p, a);
    CompletesPrefix(p, a, b);
    FirstByte(Run(p, 0, a).p, b);
    VersionBack(Run(p, 0, a).p, b[0]);
  }

  /** A line end where the parser waits for the LF behind a CR. */
  lemma ReadEol(p: Parser, s: string, q: Parser) returns (eol: string, b: string)
    requires Completes(p, s) && (s[0] == CR || s[0] == LF) && ParsingHeader(p.state) && Complete !in Step(p, s[0]).out
    requires s[0] == CR ==> Step(p, CR) == Move(q) && q.state.ReqLineAlmostDone? && q.nread == p.nread + 1
    ensures s == eol + b && IsEol(eol) && p.nread + |eol| <= HTTP_MAX_HEADER_SIZE
  {
    hide Step, Completes;
    NotFull(p, s);
    if s[0] == LF {
      eol, b := [LF], s[1..];
    } else {
      CompletesStep(p, s);
      FirstByte(q, s[1..]);
      VersionBack(q, s[1]);
      eol, b := [CR, LF], s[2..];
    }
  }

  lemma ReadNumber(p: Parser, s: string) returns (major: string, minor: string, eol: string, b: string)
    requires p.state.ReqFirstHttpMajor? && Completes(p, s)
    ensures s == major + ("." + (minor + (eol + b)))
    ensures major != "" && major[0] != '0' && AllNum(major) && Decimal(major) <= 999
    ensures minor != "" && AllNum(minor) && Decimal(minor) <= 999 && IsEol(eol)
    ensures p.nread + |major| + 1 + |minor| + |eol| <= HTTP_MAX_HEADER_SIZE
  {
    hide Step, Run, Completes, Decimal;
    var r1, r2;
    major, r1 := ReadMajor(p, s);
    RunMajor(p, major);
    CompletesPrefix(p, major, ['.'] + r1);
    var q := Run(p, 0, major).p;
    MajorStep(q, '.');
    CompletesStep(q, ['.'] + r1);
    var a := Step(q, '.').p;
    assert (['.'] + r1)[1..] == r1;
    minor, r2 := ReadMinor(a, r1);
    RunMinor(a, minor);
    CompletesPrefix(a, minor, r2);
    var c := Run(a, 0, minor).p;
    NotFull(c, r2);
    MinorStep(c, r2[0]);
    eol, b := ReadEol(c, r2, c.(nread := c.nread + 1, state := ReqLineAlmostDone));
    assert "." == ['.'];
  }

  /** What stands behind a target is the end of a request line. */
  lemma ReadVersion(p: Parser, s: string) returns (v: Version, b: string)
    requires UrlRest(p.state) && Completes(p, s) && (s[0] == ' ' || s[0] == CR || s[0] == LF)
    requires p.nread <= HTTP_MAX_HEADER_SIZE
    ensures s == ShowVersion(v) + b && VersionOk(v) && p.nread + |ShowVersion(v)| <= HTTP_MAX_HEADER_SIZE
  {
    hide Step, Run, Completes, Decimal, UrlRest, IsEol;
    UrlRestCounts(p.state);
    NotFull(p, s);
    TargetEndStep(p);
    if s[0] == ' ' {
      CompletesStep(p, s);
      var q := Step(p, ' ').p;
      var gap, r1 := Divide(VersionGap, q, s[1..]);
      assert forall i | 0 <= i < |gap| :: Of(VersionGap, gap[i]);
      RunSkipped(q, gap);
      var a := Run(q, 0, gap).p;
      var r2 := ReadHttp(a, r1);
      RunHttp(a);
      HttpNext(a, r1, r2);
      var major, minor, eol, r3 := ReadNumber(Run(a, 0, "HTTP/").p, r2);
      v, b := Numbered(gap, major, minor, eol), r3;
      Assembled(s, gap, r1, r2, major, minor, eol, b);
    } else {
      var eol;
      eol, b := ReadEol(p, s, p.(nread := p.nread + 1, httpMajor := 0, httpMinor := 9, state := ReqLineAlmostDone));
      v := Simple(eol);
    }
  }

  lemma UrlRestCounts(s: State)
    requires UrlRest(s)
    ensures ParsingHeader(s)
  {
  }

  lemma HttpNext(p: Parser, s: string, b: string)
    requires Completes(p, s) && s == "HTTP/" + b
    requires p.state.ReqHttpStart? && p.nread + 5 <= HTTP_MAX_HEADER_SIZE
    ensures Completes(Run(p, 0, "HTTP/").p, b)
  {
    hide Run, Step, Completes;
    RunHttp(p);
    CompletesPast(p, "HTTP/", b);
  }

  lemma Assembled(s: string, gap: string, r1: string, r2: string, major: string, minor: string, eol: string, b: string)
    requires s != "" && s[0] == ' ' && s[1..] == gap + r1 && r1 == "HTTP/" + r2
    requires r2 == major + ("." + (minor + (eol + b)))
    ensures s == ShowVersion(Numbered(gap, major, minor, eol)) + b
  {
    var n := minor + eol;
    assert minor + (eol + b) == n + b;
    assert "." + (n + b) == ("." + n) + b;
    assert major + (("." + n) + b) == (major + ("." + n)) + b;
    var k := major + ("." + n);
    assert "HTTP/" + (k + b) == ("HTTP/" + k) + b;
    assert gap + (("HTTP/" + k) + b) == (gap + ("HTTP/" + k)) + b;
    assert s == [' '] + s[1..];
    assert " " + ((gap + ("HTTP/" + k)) + b) == (" " + (gap + ("HTTP/" + k))) + b;
  }
}
