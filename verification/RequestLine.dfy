/** The request line (section 5.1 of RFC 2616): target and version. */
module RequestLines {
  import opened Chars
  import opened Options
  import opened Parser
  import opened Trace
  import opened Split
  import opened Methods
  import opened Values
  import opened Urls

  // ---------------------------------------------------------------- the request target

  /** A target that the parser accepts for the method: the machine that `http_parser_parse_url` runs in
      its first pass ends in a state in which a URL may end. */
  predicate TargetOk(m: Method, t: string) {
    t != "" && UrlRest(PassState(m, t))
  }

  lemma FirstUrlStep(p: Parser, ch: char)
    requires p.state.ReqSpacesBeforeUrl? && p.nread < HTTP_MAX_HEADER_SIZE
    ensures var s := ParseUrlChar(PassState(p.verb, ""), ch);
            !s.Dead? ==> Step(p, ch) == Emit(p.(nread := p.nread + 1, state := s), Byte(Url, ch))
  {
    hide ParseUrlChar, PassState;
    PassStart(p.verb);
    NoBlank(PassState(p.verb, ""), ch);
    assert Micro(Count(p), ch) == AtReqSpaces(Count(p), ch);
  }

  lemma NoBlank(s: State, ch: char)
    ensures ch == ' ' || ch == CR || ch == LF ==> ParseUrlChar(s, ch).Dead?
  {
  }

  lemma UrlStep(p: Parser, ch: char)
    requires (UrlPrefix(p.state) || UrlRest(p.state)) && p.nread < HTTP_MAX_HEADER_SIZE
    ensures var s := ParseUrlChar(p.state, ch);
            !s.Dead? ==> Step(p, ch) == Emit(p.(nread := p.nread + 1, state := s), Byte(Url, ch))
  {
    hide ParseUrlChar;
    NoBlank(p.state, ch);
    assert Micro(Count(p), ch) == InUrl(Count(p), ch);
  }

  lemma {:induction false} RunTarget(p: Parser, t: string)
    requires p.state.ReqSpacesBeforeUrl? && t != "" && p.nread + |t| <= HTTP_MAX_HEADER_SIZE
    requires !PassState(p.verb, t).Dead?
    ensures Run(p, 0, t) == Result(p.(nread := p.nread + |t|, state := PassState(p.verb, t)),
                                   |t|, Bytes(Url, t), |t|, Advance)
    ensures var s := PassState(p.verb, t); UrlPrefix(s) || UrlRest(s)
    decreases |t|
  {
    hide Step, Run, ParseUrlChar, UrlPrefix, UrlRest, PassState, MarkOf;
    var n := |t| - 1;
    var s, c := t[..n], t[n];
    var u := PassState(p.verb, s);
    assert t == s + [c];
    PassOn(p.verb, s, c);
    UrlCharStates(u, c);
    MarkOfUrl(ParseUrlChar(u, c));
    if n == 0 {
      assert t == [c] && s == "";
      FirstUrlStep(p, c);
      RunOne(p, 0, c);
      assert Bytes(Url, [c]) == [Byte(Url, c)];
    } else {
      RunTarget(p, s);
      UrlStep(p.(nread := p.nread + n, state := u), c);
      RunSnoc(p, 0, s, c);
      assert Bytes(Url, t) == Bytes(Url, s) + [Byte(Url, c)];
    }
  }

  lemma MarkOfUrl(s: State)
    ensures UrlPrefix(s) || UrlRest(s) ==> MarkOf(s) == Some(Url)
  {
  }

  // ---------------------------------------------------------------- bytes that are skipped

  /** Line ends before a request, and more blanks than one between its parts. */
  predicate Skipped(s: State, ch: char) {
    (s.StartReq? && (ch == CR || ch == LF)) || ((s.ReqSpacesBeforeUrl? || s.ReqHttpStart?) && ch == ' ')
  }

  lemma SkipStep(p: Parser, ch: char)
    requires Skipped(p.state, ch) && p.nread < HTTP_MAX_HEADER_SIZE
    ensures Step(p, ch) == Move(p.(nread := p.nread + 1)) && MarkOf(p.state).None?
  {
    hide HeaderLines, BodyPart;
    assert Micro(Count(p), ch) == RequestLine(Count(p), ch);
  }

  lemma {:induction false} RunSkipped(p: Parser, s: string)
    requires (forall i | 0 <= i < |s| :: Skipped(p.state, s[i])) && p.nread + |s| <= HTTP_MAX_HEADER_SIZE
    ensures Run(p, 0, s) == Result(p.(nread := p.nread + |s|), |s|, [], 0, Advance)
    decreases |s|
  {
    hide Step, Run, MarkOf, Skipped;
    if s == "" {
      RunNothing(p, 0);
    } else {
      var n := |s| - 1;
      var q := p.(nread := p.nread + n);
      Snoc(s);
      RunSkipped(p, s[..n]);
      SkipStep(q, s[n]);
      RunMove(p, s[..n], s[n], q, p.(nread := p.nread + |s|));
    }
  }

  // ---------------------------------------------------------------- the version

  /** What stands behind a target: a line end (a request of HTTP/0.9), or blanks, the version and a line
      end. */
  datatype Version = Simple(eol: string) | Numbered(gap: string, major: string, minor: string, eol: string)

  predicate Blanks(s: string) {
    forall i | 0 <= i < |s| :: s[i] == ' '
  }

  predicate VersionOk(v: Version) {
    && IsEol(v.eol)
    && (v.Numbered? ==>
          && Blanks(v.gap) && v.major != "" && v.major[0] != '0' && AllNum(v.major) && Decimal(v.major) <= 999
          && v.minor != "" && AllNum(v.minor) && Decimal(v.minor) <= 999)
  }

  function MajorOf(v: Version): nat
    requires VersionOk(v)
  {
    if v.Simple? then 0 else Decimal(v.major)
  }

  function MinorOf(v: Version): nat
    requires VersionOk(v)
  {
    if v.Simple? then 9 else Decimal(v.minor)
  }

  function ShowVersion(v: Version): string {
    match v
    case Simple(eol) => eol
    case Numbered(gap, major, minor, eol) => " " + (gap + ("HTTP/" + (major + ("." + (minor + eol)))))
  }

  lemma VersionStep(p: Parser, ch: char)
    requires p.nread < HTTP_MAX_HEADER_SIZE
    ensures var q := p.(nread := p.nread + 1);
            && (p.state.ReqHttpStart? && ch == 'H' ==> Step(p, ch) == Move(q.(state := ReqHttpH)))
            && (p.state.ReqHttpH? && ch == 'T' ==> Step(p, ch) == Move(q.(state := ReqHttpHT)))
            && (p.state.ReqHttpHT? && ch == 'T' ==> Step(p, ch) == Move(q.(state := ReqHttpHTT)))
            && (p.state.ReqHttpHTT? && ch == 'P' ==> Step(p, ch) == Move(q.(state := ReqHttpHTTP)))
            && (p.state.ReqHttpHTTP? && ch == '/' ==> Step(p, ch) == Move(q.(state := ReqFirstHttpMajor)))
  {
    if p.state.ReqHttpStart? || InHttp(p.state) { assert Micro(Count(p), ch) == RequestLine(Count(p), ch); }
  }

  /** Two bytes that only move. */
  lemma RunTwo(p: Parser, a: char, b: char, q: Parser, r: Parser)
    requires Step(p, a) == Move(q) && Step(q, b) == Move(r) && MarkOf(q.state).None? && MarkOf(r.state).None?
    ensures Run(p, 0, [a, b]) == Result(r, 2, [], 0, Advance)
  {
    hide Run, Step;
    RunNothing(p, 0);
    RunMove(p, "", a, p, q);
    assert "" + [a] == [a] && [a] + [b] == [a, b];
    RunMove(p, [a], b, q, r);
  }

  lemma RunHttp(p: Parser)
    requires p.state.ReqHttpStart? && p.nread + 5 <= HTTP_MAX_HEADER_SIZE
    ensures Run(p, 0, "HTTP/") == Result(p.(nread := p.nread + 5, state := ReqFirstHttpMajor), 5, [], 0, Advance)
  {
    hide Run, Step;
    var n := p.nread;
    var b := p.(nread := n + 2, state := ReqHttpHT);
    RunHt(p);
    RunTp(b);
    var d := p.(nread := n + 4, state := ReqHttpHTTP);
    RunJoin(p, ['H', 'T'], b, [], ['T', 'P'], Result(d, 2, [], 0, Advance));
    VersionStep(d, '/');
    assert ['H', 'T'] + ['T', 'P'] == "HTTP" && "HTTP" + ['/'] == "HTTP/";
    RunMove(p, "HTTP", '/', d, p.(nread := n + 5, state := ReqFirstHttpMajor));
  }

  lemma RunHt(p: Parser)
    requires p.state.ReqHttpStart? && p.nread + 2 <= HTTP_MAX_HEADER_SIZE
    ensures Run(p, 0, ['H', 'T']) == Result(p.(nread := p.nread + 2, state := ReqHttpHT), 2, [], 0, Advance)
  {
    hide Run, Step;
    var a := p.(nread := p.nread + 1, state := ReqHttpH);
    VersionStep(p, 'H');
    VersionStep(a, 'T');
    RunTwo(p, 'H', 'T', a, p.(nread := p.nread + 2, state := ReqHttpHT));
  }

  lemma RunTp(p: Parser)
    requires p.state.ReqHttpHT? && p.nread + 2 <= HTTP_MAX_HEADER_SIZE
    ensures Run(p, 0, ['T', 'P']) == Result(p.(nread := p.nread + 2, state := ReqHttpHTTP), 2, [], 0, Advance)
  {
    hide Run, Step;
    var a := p.(nread := p.nread + 1, state := ReqHttpHTT);
    VersionStep(p, 'T');
    VersionStep(a, 'P');
    RunTwo(p, 'T', 'P', a, p.(nread := p.nread + 2, state := ReqHttpHTTP));
  }

  lemma MajorStep(p: Parser, ch: char)
    requires p.nread < HTTP_MAX_HEADER_SIZE
    ensures var q := p.(nread := p.nread + 1);
            && (p.state.ReqFirstHttpMajor? && '1' <= ch <= '9' ==>
                Step(p, ch) == Move(q.(httpMajor := Digit(ch), state := ReqHttpMajor)))
            && (p.state.ReqHttpMajor? && IsNum(ch) && p.httpMajor * 10 + Digit(ch) <= 999 ==>
                Step(p, ch) == Move(q.(httpMajor := p.httpMajor * 10 + Digit(ch))))
            && (p.state.ReqHttpMajor? && ch == '.' ==> Step(p, ch) == Move(q.(state := ReqFirstHttpMinor)))
  {
    hide HeaderLines, BodyPart;
    if p.state.ReqFirstHttpMajor? || p.state.ReqHttpMajor? { assert Micro(Count(p), ch) == RequestLine(Count(p), ch); }
  }

  lemma MinorStep(p: Parser, ch: char)
    requires p.nread < HTTP_MAX_HEADER_SIZE
    ensures var q := p.(nread := p.nread + 1);
            && (p.state.ReqFirstHttpMinor? && IsNum(ch) ==>
                Step(p, ch) == Move(q.(httpMinor := Digit(ch), state := ReqHttpMinor)))
            && (p.state.ReqHttpMinor? && IsNum(ch) && p.httpMinor * 10 + Digit(ch) <= 999 ==>
                Step(p, ch) == Move(q.(httpMinor := p.httpMinor * 10 + Digit(ch))))
            && (p.state.ReqHttpMinor? && ch == CR ==> Step(p, ch) == Move(q.(state := ReqLineAlmostDone)))
            && (p.state.ReqHttpMinor? && ch == LF ==> Step(p, ch) == Move(q.(state := HeaderFieldStart)))
  {
    hide HeaderLines, BodyPart;
    if p.state.ReqFirstHttpMinor? || p.state.ReqHttpMinor? { assert Micro(Count(p), ch) == RequestLine(Count(p), ch); }
  }

  lemma LineEndStep(p: Parser)
    requires p.nread < HTTP_MAX_HEADER_SIZE && p.state.ReqLineAlmostDone?
    ensures Step(p, LF) == Move(p.(nread := p.nread + 1, state := HeaderFieldStart))
  {
    hide HeaderLines, BodyPart;
    assert Micro(Count(p), LF) == AtLineAlmostDone(Count(p), LF);
  }

  lemma {:induction false} RunMajor(p: Parser, s: string)
    requires p.state.ReqFirstHttpMajor? && p.nread + |s| <= HTTP_MAX_HEADER_SIZE
    requires s != "" && s[0] != '0' && AllNum(s) && Decimal(s) <= 999
    ensures Run(p, 0, s) ==
            Result(p.(nread := p.nread + |s|, httpMajor := Decimal(s), state := ReqHttpMajor), |s|, [], 0, Advance)
    decreases |s|
  {
    hide Run, Step, Digit;
    var n := |s| - 1;
    Snoc(s);
    DecimalSnoc(s[..n], s[n]);
    if n == 0 {
      MajorStep(p, s[0]);
      RunOne(p, 0, s[0]);
      assert s[..n] == "" && s == [s[0]];
    } else {
      RunMajor(p, s[..n]);
      var q := p.(nread := p.nread + n, httpMajor := Decimal(s[..n]), state := ReqHttpMajor);
      MajorStep(q, s[n]);
      RunMove(p, s[..n], s[n], q, q.(nread := p.nread + |s|, httpMajor := Decimal(s)));
    }
  }

  lemma {:induction false} RunMinor(p: Parser, s: string)
    requires p.state.ReqFirstHttpMinor? && p.nread + |s| <= HTTP_MAX_HEADER_SIZE
    requires s != "" && AllNum(s) && Decimal(s) <= 999
    ensures Run(p, 0, s) ==
            Result(p.(nread := p.nread + |s|, httpMinor := Decimal(s), state := ReqHttpMinor), |s|, [], 0, Advance)
    decreases |s|
  {
    hide Run, Step, Digit;
    var n := |s| - 1;
    Snoc(s);
    DecimalSnoc(s[..n], s[n]);
    if n == 0 {
      MinorStep(p, s[0]);
      RunOne(p, 0, s[0]);
      assert s[..n] == "" && s == [s[0]];
    } else {
      RunMinor(p, s[..n]);
      var q := p.(nread := p.nread + n, httpMinor := Decimal(s[..n]), state := ReqHttpMinor);
      MinorStep(q, s[n]);
      RunMove(p, s[..n], s[n], q, q.(nread := p.nread + |s|, httpMinor := Decimal(s)));
    }
  }

  /** The end of a request line that has a version. */
  lemma RunMinorEol(p: Parser, eol: string)
    requires p.state.ReqHttpMinor? && IsEol(eol) && p.nread + |eol| <= HTTP_MAX_HEADER_SIZE
    ensures Run(p, 0, eol) == Result(p.(nread := p.nread + |eol|, state := HeaderFieldStart), |eol|, [], 0, Advance)
  {
    hide Run, Step;
    if eol == [LF] {
      MinorStep(p, LF);
      RunOne(p, 0, LF);
    } else {
      MinorStep(p, CR);
      var q := p.(nread := p.nread + 1, state := ReqLineAlmostDone);
      LineEndStep(q);
      RunTwo(p, CR, LF, q, p.(nread := p.nread + 2, state := HeaderFieldStart));
    }
  }

  /** The number of the version, and the end of the line. */
  lemma RunNumber(p: Parser, v: Version)
    requires p.state.ReqFirstHttpMajor? && VersionOk(v) && v.Numbered?
    requires p.nread + |v.major| + 1 + |v.minor| + |v.eol| <= HTTP_MAX_HEADER_SIZE
    ensures var s := v.major + ("." + (v.minor + v.eol));
            Run(p, 0, s) == Result(p.(nread := p.nread + |s|, httpMajor := MajorOf(v), httpMinor := MinorOf(v),
                                      state := HeaderFieldStart), |s|, [], 0, Advance)
  {
    hide Run, Step, Decimal, IsEol;
    RunMajor(p, v.major);
    var a := p.(nread := p.nread + |v.major|, httpMajor := Decimal(v.major), state := ReqHttpMajor);
    MajorStep(a, '.');
    RunOne(a, 0, '.');
    var b := a.(nread := a.nread + 1, state := ReqFirstHttpMinor);
    RunMinor(b, v.minor);
    var c := b.(nread := b.nread + |v.minor|, httpMinor := Decimal(v.minor), state := ReqHttpMinor);
    RunMinorEol(c, v.eol);
    RunJoin(b, v.minor, c, [], v.eol, Run(c, 0, v.eol));
    assert "." == ['.'];
    RunJoin(a, ".", b, [], v.minor + v.eol, Run(b, 0, v.minor + v.eol));
    RunJoin(p, v.major, a, [], "." + (v.minor + v.eol), Run(a, 0, "." + (v.minor + v.eol)));
  }

  // ---------------------------------------------------------------- the end of a target

  lemma TargetEndStep(p: Parser)
    requires UrlRest(p.state) && p.nread < HTTP_MAX_HEADER_SIZE
    ensures var q := p.(nread := p.nread + 1);
            && Step(p, ' ') == Move(q.(state := ReqHttpStart))
            && Step(p, CR) == Move(q.(httpMajor := 0, httpMinor := 9, state := ReqLineAlmostDone))
            && Step(p, LF) == Move(q.(httpMajor := 0, httpMinor := 9, state := HeaderFieldStart))
  {
    hide HeaderLines, BodyPart;
    forall ch | ch == ' ' || ch == CR || ch == LF ensures Micro(Count(p), ch) == AtUrl(Count(p), ch) {
      assert Micro(Count(p), ch) == InUrl(Count(p), ch);
    }
  }

  /** The end of a target and the version behind it, with held bytes of the target pending. */
  lemma RunVersion(p: Parser, held: nat, v: Version)
    requires UrlRest(p.state) && VersionOk(v) && p.nread + |ShowVersion(v)| <= HTTP_MAX_HEADER_SIZE
    ensures var s := ShowVersion(v);
            Run(p, held, s) == Result(p.(nread := p.nread + |s|, httpMajor := MajorOf(v), httpMinor := MinorOf(v),
                                         state := HeaderFieldStart), |s|, [], 0, Advance)
  {
    hide Run, Step, UrlRest, Decimal, MarkOf;
    NoMarkBehindUrl();
    TargetEndStep(p);
    if v.Numbered? {
      var q := p.(nread := p.nread + 1, state := ReqHttpStart);
      var n := v.major + ("." + (v.minor + v.eol));
      RunOne(p, held, ' ');
      RunSkipped(q, v.gap);
      var a := q.(nread := q.nread + |v.gap|);
      RunHttp(a);
      var b := a.(nread := a.nread + 5, state := ReqFirstHttpMajor);
      RunNumber(b, v);
      RunJoin(a, "HTTP/", b, [], n, Run(b, 0, n));
      RunJoin(q, v.gap, a, [], "HTTP/" + n, Run(a, 0, "HTTP/" + n));
      RunConcat(p, held, " ", v.gap + ("HTTP/" + n));
      assert " " == [' '];
    } else {
      RunSimple(p, held, v.eol);
    }
  }

  lemma RunSimple(p: Parser, held: nat, eol: string)
    requires UrlRest(p.state) && IsEol(eol) && p.nread + |eol| <= HTTP_MAX_HEADER_SIZE
    ensures Run(p, held, eol) == Result(p.(nread := p.nread + |eol|, httpMajor := 0, httpMinor := 9,
                                           state := HeaderFieldStart), |eol|, [], 0, Advance)
  {
    hide Run, Step, UrlRest, MarkOf;
    NoMarkBehindUrl();
    TargetEndStep(p);
    if eol == [LF] {
      RunOne(p, held, LF);
    } else {
      var q := p.(nread := p.nread + 1, httpMajor := 0, httpMinor := 9, state := ReqLineAlmostDone);
      LineEndStep(q);
      RunOne(p, held, CR);
      assert eol == [CR] + [LF];
      RunSnoc(p, held, [CR], LF);
    }
  }

  lemma NoMarkBehindUrl()
    ensures MarkOf(ReqHttpStart).None? && MarkOf(ReqLineAlmostDone).None? && MarkOf(HeaderFieldStart).None?
  {
  }

  lemma RestIsAlive(s: State)
    requires UrlRest(s)
    ensures !s.Dead?
  {
  }

  /** A target and what stands behind it. */
  lemma RunTargetVersion(p: Parser, t: string, v: Version)
    requires p.state.ReqSpacesBeforeUrl? && TargetOk(p.verb, t) && VersionOk(v)
    requires p.nread + |t| + |ShowVersion(v)| <= HTTP_MAX_HEADER_SIZE
    ensures var s := t + ShowVersion(v);
            Run(p, 0, s) == Result(p.(nread := p.nread + |s|, httpMajor := MajorOf(v), httpMinor := MinorOf(v),
                                      state := HeaderFieldStart), |s|, Bytes(Url, t), 0, Advance)
  {
    hide Run, Step, PassState, UrlRest, UrlPrefix, MarkOf, VersionOk, ShowVersion;
    RestIsAlive(PassState(p.verb, t));
    RunTarget(p, t);
    var q := p.(nread := p.nread + |t|, state := PassState(p.verb, t));
    RunVersion(q, |t|, v);
    RunConcat(p, 0, t, ShowVersion(v));
  }

  // ---------------------------------------------------------------- what an error drops

  lemma UrlTab(p: Parser)
    requires (UrlPrefix(p.state) || UrlRest(p.state)) && p.nread < HTTP_MAX_HEADER_SIZE
    ensures Step(p, '\t').next.Error? && Step(p, '\t').out == []
  {
    hide HeaderLines, BodyPart;
    assert Micro(Count(p), '\t') == InUrl(Count(p), '\t');
  }

  /** A cut that changes what is delivered: a request whose target is followed by a tab, in one call and
      cut behind the target. The one call drops the whole target, the two deliver it. */
  lemma ErrorDropsPending(p: Parser, m: Method, t: string)
    requires p.state.StartReq? && TargetOk(m, t) && p.nread + |OnWire(m)| + |t| + 2 <= HTTP_MAX_HEADER_SIZE
    ensures var a, b := OnWire(m) + " " + t, "\t";
            var one, first := Run(p, 0, a + b), Run(p, 0, a); var second := Run(first.p, 0, b);
            && first.end.Advance? && one.end.Error?
            && Delivered(one) == [Begin] && Delivered(first) + Delivered(second) == [Begin] + Bytes(Url, t)
  {
    hide Run, Step, OnWire, PassState, UrlRest, UrlPrefix, Held;
    var w := OnWire(m) + " ";
    RunMethod(p, m);
    RestIsAlive(PassState(m, t));
    var q := Run(p, 0, w).p;
    RunTarget(q, t);
    RunJoin(p, w, q, [Begin], t, Run(q, 0, t));
    var r := Run(p, 0, w + t);
    UrlTab(r.p);
    RunSnoc(p, 0, w + t, '\t');
    RunOne(r.p, 0, '\t');
  }
}
