/** Method recognition is exact (section 5.1.1 of RFC 2616). */
module Methods {
  import opened Chars
  import opened Options
  import opened Parser
  import opened Split

  /** The bytes that select a method. They are the entry of the table, except for M-SEARCH: its
      entry reads "M - SEARCH", its second byte is matched by the candidate switch on '-', and the
      rest is matched against the entry, so that the token M-SEARCH itself is never accepted. */
  function OnWire(m: Method): string {
    if m.MSEARCH? then "M-- SEARCH" else Spelling(m)
  }

  /** The candidate held after a further byte in s_req_method, if the byte is not refused. */
  function Continue(m: Method, index: nat, ch: char): Option<Method> {
    if ch == '\0' then None
    else if ch == CharAt(Spelling(m), index) then Some(m)
    else NextCandidate(m, index, ch)
  }

  predicate Accepts(m: Method, index: nat, ch: char) {
    ch == ' ' && CharAt(Spelling(m), index) == '\0'
  }

  lemma MethodStep(p: Parser, ch: char)
    requires p.state.ReqMethod? && p.nread < HTTP_MAX_HEADER_SIZE
    ensures var q := p.(nread := p.nread + 1, index := p.index + 1);
            Step(p, ch) ==
            if Accepts(p.verb, p.index, ch) then Move(q.(state := ReqSpacesBeforeUrl))
            else match Continue(p.verb, p.index, ch)
              case None => Stop(p.(nread := p.nread + 1), InvalidMethod)
              case Some(m) => Move(q.(verb := m))
  {
    hide Spelling, NextCandidate;
    assert Micro(Count(p), ch) == AtReqMethod(Count(p), ch);
  }

  lemma StartStep(p: Parser, ch: char)
    requires p.state.StartReq? && p.nread < HTTP_MAX_HEADER_SIZE && ch != CR && ch != LF
    ensures match FirstCandidate(ch)
            case None => Step(p, ch).next.Error?
            case Some(m) =>
              Step(p, ch) == Emit(p.(nread := p.nread + 1, flags := NO_FLAGS, contentLength := ULLONG_MAX,
                                     verb := m, index := 1, state := ReqMethod), Begin)
  {
    assert Micro(Count(p), ch) == AtStartReq(Count(p), ch);
  }

  /** The bytes read so far are the first `index` bytes of the candidate. */
  predicate Agrees(w: string, m: Method) {
    w <= OnWire(m) && (m.MSEARCH? ==> |w| >= 2)
  }

  lemma FirstAgrees(ch: char)
    ensures FirstCandidate(ch).Some? ==> Agrees([ch], FirstCandidate(ch).value)
  {
  }

  /** A further byte keeps the agreement, across every switch of the candidate. */
  lemma ContinueAgrees(w: string, m: Method, ch: char)
    requires w != "" && Agrees(w, m) && Continue(m, |w|, ch).Some?
    ensures Agrees(w + [ch], Continue(m, |w|, ch).value)
  {
    if ch == CharAt(Spelling(m), |w|) {
      WireTail(m, |w|);
      assert (w + [ch])[..|w|] == w;
    } else {
      SwitchAgrees(w, m, ch);
    }
  }

  lemma WireTail(m: Method, i: nat)
    ensures |OnWire(m)| == |Spelling(m)|
    ensures i != 1 || !m.MSEARCH? ==> CharAt(OnWire(m), i) == CharAt(Spelling(m), i)
    ensures i < |Spelling(m)| ==> CharAt(Spelling(m), i) != '\0'
  {
  }

  lemma SwitchAgrees(w: string, m: Method, ch: char)
    requires w != "" && Agrees(w, m) && NextCandidate(m, |w|, ch).Some?
    ensures Agrees(w + [ch], NextCandidate(m, |w|, ch).value)
  {
    if |w| == 1 { SwitchOfTwo(w, m, ch); } else { SwitchOfMore(w, m, ch); }
  }

  lemma SwitchOfTwo(w: string, m: Method, ch: char)
    requires |w| == 1 && w <= OnWire(m) && NextCandidate(m, 1, ch).Some?
    ensures Agrees(w + [ch], NextCandidate(m, 1, ch).value)
  {
  }

  lemma SwitchOfMore(w: string, m: Method, ch: char)
    requires |w| > 1 && w <= OnWire(m) && NextCandidate(m, |w|, ch).Some?
    ensures Agrees(w + [ch], NextCandidate(m, |w|, ch).value)
  {
  }

  /** The candidate held after the first k bytes of a method m. */
  function Held(m: Method, k: nat): Method {
    if (m.MOVE? || m.MERGE? || m.MSEARCH?) && k <= 1 then MKCOL
    else if m.MKACTIVITY? && k <= 2 then MKCOL
    else if m.CHECKOUT? && k <= 1 then CONNECT
    else if m.COPY? && k <= 2 then CONNECT
    else if m.SEARCH? && k <= 1 then SUBSCRIBE
    else if m.UNSUBSCRIBE? && k <= 2 then UNLOCK
    else if (m.PUT? || m.PATCH? || m.PURGE? || m.PROPFIND? || m.PROPPATCH?) && k <= 1 then POST
    else if m.PURGE? && k <= 2 then PUT
    else if m.PROPPATCH? && k <= 4 then PROPFIND
    else m
  }

  lemma FirstHeld(m: Method)
    ensures OnWire(m) != "" && FirstCandidate(OnWire(m)[0]) == Some(Held(m, 1))
    ensures OnWire(m)[0] != CR && OnWire(m)[0] != LF
  {
    hide Held, FirstCandidate;
    FirstLetter(m);
    FirstOf(m);
  }

  lemma FirstLetter(m: Method)
    ensures OnWire(m) != "" && OnWire(m)[0] != CR && OnWire(m)[0] != LF
  {
  }

  lemma FirstOf(m: Method)
    requires OnWire(m) != ""
    ensures FirstCandidate(OnWire(m)[0]) == Some(Held(m, 1))
  {
    hide FirstCandidate, Held;
    if Held(m, 1) == m { OwnFirst(m); } else { OtherFirst(m); }
  }

  lemma OwnFirst(m: Method)
    requires OnWire(m) != "" && Held(m, 1) == m
    ensures FirstCandidate(OnWire(m)[0]) == Some(m)
  {
  }

  lemma OtherFirst(m: Method)
    requires OnWire(m) != "" && Held(m, 1) != m
    ensures FirstCandidate(OnWire(m)[0]) == Some(Held(m, 1))
  {
  }

  /** Every method leads its own candidates, byte by byte, to itself. */
  lemma NextHeld(m: Method, k: nat)
    requires 0 < k < |OnWire(m)|
    ensures Continue(Held(m, k), k, OnWire(m)[k]) == Some(Held(m, k + 1))
    ensures !Accepts(Held(m, k), k, OnWire(m)[k])
  {
    if Held(m, k) == Held(m, k + 1) { SameHeld(m, k); } else { OtherHeld(m, k); }
  }

  lemma SameHeld(m: Method, k: nat)
    requires 0 < k < |OnWire(m)| && Held(m, k) == Held(m, k + 1)
    ensures k < |Spelling(Held(m, k))| && Spelling(Held(m, k))[k] == OnWire(m)[k] != '\0'
  {
    WireTail(m, k);
  }

  lemma OtherHeld(m: Method, k: nat)
    requires 0 < k < |OnWire(m)| && Held(m, k) != Held(m, k + 1)
    ensures Continue(Held(m, k), k, OnWire(m)[k]) == Some(Held(m, k + 1))
    ensures !Accepts(Held(m, k), k, OnWire(m)[k])
  {
    if k == 1 { OtherSecond(m); } else { OtherLater(m, k); }
  }

  lemma OtherSecond(m: Method)
    requires 1 < |OnWire(m)| && Held(m, 1) != Held(m, 2)
    ensures Continue(Held(m, 1), 1, OnWire(m)[1]) == Some(Held(m, 2))
    ensures !Accepts(Held(m, 1), 1, OnWire(m)[1])
  {
    hide Held, Continue, Accepts;
    OtherSecondHeld(m);
    if Held(m, 1).MKCOL? { SecondOfM(m); }
    else if Held(m, 1).POST? { SecondOfP(m); }
    else { SecondOfCS(m); }
  }

  lemma OtherSecondHeld(m: Method)
    requires Held(m, 1) != Held(m, 2)
    ensures m.MOVE? || m.MERGE? || m.MSEARCH? || m.CHECKOUT? || m.SEARCH? || m.PUT? || m.PATCH? || m.PURGE?
            || m.PROPFIND? || m.PROPPATCH?
    ensures Held(m, 1) == if m.MOVE? || m.MERGE? || m.MSEARCH? then MKCOL else if m.CHECKOUT? then CONNECT
                          else if m.SEARCH? then SUBSCRIBE else POST
    ensures Held(m, 2) == if m.PURGE? then PUT else if m.PROPPATCH? then PROPFIND else m
  {
  }

  lemma SecondOfM(m: Method)
    requires m.MOVE? || m.MERGE? || m.MSEARCH?
    ensures |OnWire(m)| > 1 && Continue(MKCOL, 1, OnWire(m)[1]) == Some(m) && !Accepts(MKCOL, 1, OnWire(m)[1])
  {
  }

  lemma SecondOfP(m: Method)
    requires m.PUT? || m.PATCH? || m.PURGE? || m.PROPFIND? || m.PROPPATCH?
    ensures |OnWire(m)| > 1 && !Accepts(POST, 1, OnWire(m)[1])
    ensures Continue(POST, 1, OnWire(m)[1]) == Some(if m.PURGE? then PUT else if m.PROPPATCH? then PROPFIND else m)
  {
  }

  lemma SecondOfCS(m: Method)
    requires m.CHECKOUT? || m.SEARCH?
    ensures var h := if m.CHECKOUT? then CONNECT else SUBSCRIBE;
            |OnWire(m)| > 1 && Continue(h, 1, OnWire(m)[1]) == Some(m) && !Accepts(h, 1, OnWire(m)[1])
  {
  }

  lemma OtherLater(m: Method, k: nat)
    requires 1 < k < |OnWire(m)| && Held(m, k) != Held(m, k + 1)
    ensures Continue(Held(m, k), k, OnWire(m)[k]) == Some(Held(m, k + 1))
    ensures !Accepts(Held(m, k), k, OnWire(m)[k])
  {
  }

  /** The stretch of bytes w is read in s_req_method, from the first byte of a request on. */
  ghost predicate Reading(p: Parser, w: string) {
    forall k :: 1 <= k <= |w| ==> var r := Run(p, 0, w[..k]); r.end.Advance? && r.p.state.ReqMethod?
  }

  lemma {:induction false} ReadingAgrees(p: Parser, w: string)
    requires p.state.StartReq? && p.nread + |w| <= HTTP_MAX_HEADER_SIZE
    requires w != "" && w[0] != CR && w[0] != LF && Reading(p, w)
    ensures var r := Run(p, 0, w);
            && r.end.Advance? && r.p.state.ReqMethod? && r.held == 0
            && r.p.index == |w| && r.p.nread == p.nread + |w| && Agrees(w, r.p.verb)
    decreases |w|
  {
    hide Step, Run;
    var n := |w| - 1;
    var u := w[..n];
    assert w == u + [w[n]] && w == w[..|w|];
    if n == 0 {
      StartStep(p, w[0]);
      FirstAgrees(w[0]);
      RunOne(p, 0, w[0]);
      assert w == [w[0]];
    } else {
      forall k | 1 <= k <= |u| ensures var r := Run(p, 0, u[..k]); r.end.Advance? && r.p.state.ReqMethod? {
        assert u[..k] == w[..k];
      }
      ReadingAgrees(p, u);
      var r := Run(p, 0, u);
      MethodStep(r.p, w[n]);
      RunSnoc(p, 0, u, w[n]);
      ContinueAgreesWhenRead(u, r.p, w[n]);
    }
  }

  lemma ContinueAgreesWhenRead(u: string, p: Parser, ch: char)
    requires u != "" && Agrees(u, p.verb) && p.index == |u|
    ensures Continue(p.verb, p.index, ch).Some? ==> Agrees(u + [ch], Continue(p.verb, p.index, ch).value)
  {
    if Continue(p.verb, p.index, ch).Some? { ContinueAgrees(u, p.verb, ch); }
  }

  /** The parser after the first k bytes of method m. */
  function AfterBytes(p: Parser, m: Method, k: nat): Parser {
    p.(nread := p.nread + k, flags := NO_FLAGS, contentLength := ULLONG_MAX, verb := Held(m, k), index := k,
       state := ReqMethod)
  }

  lemma {:induction false} RunMethodBytes(p: Parser, m: Method, k: nat)
    requires p.state.StartReq? && 0 < k <= |OnWire(m)| && p.nread + k <= HTTP_MAX_HEADER_SIZE
    ensures Run(p, 0, OnWire(m)[..k]) == Result(AfterBytes(p, m, k), k, [Begin], 0, Advance)
  {
    hide Step, Run, OnWire, Held, Continue, Accepts;
    var w := OnWire(m);
    if k == 1 {
      FirstHeld(m);
      StartStep(p, w[0]);
      RunOne(p, 0, w[0]);
      assert w[..1] == [w[0]];
    } else {
      RunMethodBytes(p, m, k - 1);
      NextHeld(m, k - 1);
      MethodStep(AfterBytes(p, m, k - 1), w[k - 1]);
      RunSnoc(p, 0, w[..k - 1], w[k - 1]);
      assert w[..k] == w[..k - 1] + [w[k - 1]];
    }
  }

  /** A method and the blank after it. */
  lemma RunMethod(p: Parser, m: Method)
    requires p.state.StartReq? && p.nread + |OnWire(m)| + 1 <= HTTP_MAX_HEADER_SIZE
    ensures var n := |OnWire(m)| + 1;
            Run(p, 0, OnWire(m) + " ") ==
            Result(AfterBytes(p, m, n).(state := ReqSpacesBeforeUrl, verb := m), n, [Begin], 0, Advance)
  {
    hide Step, Run;
    var n := |OnWire(m)|;
    WireEnds(m);
    RunMethodBytes(p, m, n);
    assert OnWire(m)[..n] == OnWire(m);
    RunSnoc(p, 0, OnWire(m), ' ');
    MethodStep(AfterBytes(p, m, n), ' ');
  }

  lemma WireEnds(m: Method)
    ensures |OnWire(m)| > 0 && Held(m, |OnWire(m)|) == m && CharAt(Spelling(m), |OnWire(m)|) == '\0'
  {
  }

  /** A stretch w of bytes read in s_req_method is ended by a blank as method m exactly when w is
      the spelling of m. */
  lemma MethodExact(p: Parser, w: string, m: Method)
    requires p.state.StartReq? && p.nread + |w| + 1 <= HTTP_MAX_HEADER_SIZE
    requires w != "" && w[0] != CR && w[0] != LF
    ensures (Reading(p, w)
             && Run(p, 0, w + " ").p.state.ReqSpacesBeforeUrl? && Run(p, 0, w + " ").p.verb == m)
            <==> w == OnWire(m)
  {
    hide Step, Run, OnWire, Reading, Spelling, Held;
    if Reading(p, w) && Run(p, 0, w + " ").p.state.ReqSpacesBeforeUrl? && Run(p, 0, w + " ").p.verb == m {
      OnlySpellings(p, w, m);
    }
    if w == OnWire(m) {
      SpellingIsRead(p, m);
      RunMethod(p, m);
    }
  }

  lemma OnlySpellings(p: Parser, w: string, m: Method)
    requires p.state.StartReq? && p.nread + |w| + 1 <= HTTP_MAX_HEADER_SIZE
    requires w != "" && w[0] != CR && w[0] != LF && Reading(p, w)
    requires Run(p, 0, w + " ").p.state.ReqSpacesBeforeUrl? && Run(p, 0, w + " ").p.verb == m
    ensures w == OnWire(m)
  {
    hide Step, Run, OnWire, Reading, Spelling;
    ReadingAgrees(p, w);
    RunSnoc(p, 0, w, ' ');
    MethodStep(Run(p, 0, w).p, ' ');
    WireTail(m, |w|);
  }

  lemma SpellingIsRead(p: Parser, m: Method)
    requires p.state.StartReq? && p.nread + |OnWire(m)| <= HTTP_MAX_HEADER_SIZE
    ensures Reading(p, OnWire(m))
  {
    hide Step, Run, OnWire, Held;
    var w := OnWire(m);
    forall k | 1 <= k <= |w| ensures var r := Run(p, 0, w[..k]); r.end.Advance? && r.p.state.ReqMethod? {
      RunMethodBytes(p, m, k);
    }
  }

  /** The word w, and the blank behind it, is read as method m from the start of a request on. */
  ghost predicate ReadAs(p: Parser, w: string, m: Method) {
    && Reading(p, w) && Run(p, 0, w + " ").end.Advance?
    && Run(p, 0, w + " ").p.state.ReqSpacesBeforeUrl? && Run(p, 0, w + " ").p.verb == m
  }

  lemma OnWireReadAs(p: Parser, m: Method)
    requires p.state.StartReq? && p.nread + 20 <= HTTP_MAX_HEADER_SIZE
    ensures ReadAs(p, OnWire(m), m)
  {
    hide Step, Run, Reading, Held, OnWire;
    WireFits(m);
    SpellingIsRead(p, m);
    RunMethod(p, m);
  }

  lemma WireFits(m: Method)
    ensures |OnWire(m)| < 20
  {
  }

  /** The registered methods, word by word. */
  lemma MethodWords(p: Parser)
    requires p.state.StartReq? && p.nread + 20 <= HTTP_MAX_HEADER_SIZE
    ensures ReadAs(p, "DELETE", DELETE) && ReadAs(p, "GET", GET) && ReadAs(p, "HEAD", HEAD)
    ensures ReadAs(p, "POST", POST) && ReadAs(p, "PUT", PUT) && ReadAs(p, "CONNECT", CONNECT)
    ensures ReadAs(p, "OPTIONS", OPTIONS) && ReadAs(p, "TRACE", TRACE)
    ensures ReadAs(p, "COPY", COPY) && ReadAs(p, "LOCK", LOCK) && ReadAs(p, "MKCOL", MKCOL)
    ensures ReadAs(p, "MOVE", MOVE) && ReadAs(p, "PROPFIND", PROPFIND) && ReadAs(p, "PROPPATCH", PROPPATCH)
    ensures ReadAs(p, "SEARCH", SEARCH) && ReadAs(p, "UNLOCK", UNLOCK)
    ensures ReadAs(p, "REPORT", REPORT) && ReadAs(p, "MKACTIVITY", MKACTIVITY)
    ensures ReadAs(p, "CHECKOUT", CHECKOUT) && ReadAs(p, "MERGE", MERGE)
    ensures ReadAs(p, "NOTIFY", NOTIFY) && ReadAs(p, "SUBSCRIBE", SUBSCRIBE)
    ensures ReadAs(p, "UNSUBSCRIBE", UNSUBSCRIBE) && ReadAs(p, "PATCH", PATCH) && ReadAs(p, "PURGE", PURGE)
    ensures ReadAs(p, "M-- SEARCH", MSEARCH)
  {
    hide ReadAs, OnWire;
    forall m ensures ReadAs(p, OnWire(m), m) {
      OnWireReadAs(p, m);
    }
    BasicWords();
    OtherWords();
  }

  lemma BasicWords()
    ensures OnWire(DELETE) == "DELETE" && OnWire(GET) == "GET" && OnWire(HEAD) == "HEAD"
    ensures OnWire(POST) == "POST" && OnWire(PUT) == "PUT" && OnWire(CONNECT) == "CONNECT"
    ensures OnWire(OPTIONS) == "OPTIONS" && OnWire(TRACE) == "TRACE"
    ensures OnWire(COPY) == "COPY" && OnWire(LOCK) == "LOCK" && OnWire(MKCOL) == "MKCOL"
    ensures OnWire(MOVE) == "MOVE" && OnWire(PROPFIND) == "PROPFIND" && OnWire(PROPPATCH) == "PROPPATCH"
  {
  }

  lemma OtherWords()
    ensures OnWire(SEARCH) == "SEARCH" && OnWire(UNLOCK) == "UNLOCK"
    ensures OnWire(REPORT) == "REPORT" && OnWire(MKACTIVITY) == "MKACTIVITY"
    ensures OnWire(CHECKOUT) == "CHECKOUT" && OnWire(MERGE) == "MERGE"
    ensures OnWire(NOTIFY) == "NOTIFY" && OnWire(SUBSCRIBE) == "SUBSCRIBE"
    ensures OnWire(UNSUBSCRIBE) == "UNSUBSCRIBE" && OnWire(PATCH) == "PATCH" && OnWire(PURGE) == "PURGE"
    ensures OnWire(MSEARCH) == "M-- SEARCH"
  {
  }

  /** The method token M-SEARCH of UPnP is refused at its third byte. */
  lemma MSearchRefused(p: Parser)
    requires p.state.StartReq? && p.nread + 3 <= HTTP_MAX_HEADER_SIZE
    ensures var r := Run(p, 0, "M-S"); r.end.Error? && r.used == 2 && r.p.errno == InvalidMethod
  {
    hide Step, Run;
    RunMethodBytes(p, MSEARCH, 2);
    assert OnWire(MSEARCH)[..2] == "M-" && "M-S" == "M-" + ['S'];
    RunSnoc(p, 0, "M-", 'S');
    MethodStep(AfterBytes(p, MSEARCH, 2), 'S');
  }
}
