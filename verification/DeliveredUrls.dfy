/** What `http_parser_execute` delivers as a URL, `http_parser_parse_url` can read: both run the same
    character machine, and the first has already refused what would kill the second. */
module DeliveredUrls {
  import opened Chars
  import opened Options
  import opened Parser
  import opened Invariant
  import opened Urls

  /** The URL bytes since the last message began, when they were u before a stretch of the trace. */
  function Target(u: string, trace: seq<Atom>): string
    decreases |trace|
  {
    if trace == [] then u
    else
      var v := match trace[0]
        case Begin => ""
        case Byte(f, c) => if f.Url? then u + [c] else u
        case _ => u;
      Target(v, trace[1..])
  }

  lemma {:induction false} TargetConcat(u: string, a: seq<Atom>, b: seq<Atom>)
    ensures Target(u, a + b) == Target(Target(u, a), b)
    decreases |a|
  {
    if a == [] {
      assert a + b == b;
    } else {
      assert (a + b)[0] == a[0] && (a + b)[1..] == a[1..] + b;
      TargetConcat(Target(u, [a[0]]), a[1..], b);
      OneAtom(u, a[0]);
    }
  }

  lemma OneAtom(u: string, a: Atom)
    ensures Target(u, []) == u
    ensures Target(u, [a]) == if a.Begin? then "" else if a.Byte? && a.field.Url? then u + [a.c] else u
  {
    assert [a][1..] == [];
  }

  /** How the URL bytes so far fit the parser. */
  predicate Kept(u: string, p: Parser) {
    if p.state.StartReq? || p.state.Dead? then true
    else if p.state.ReqMethod? || p.state.ReqSpacesBeforeUrl? then u == ""
    else if UrlPrefix(p.state) || UrlRest(p.state) then u != "" && PassState(p.verb, u) == p.state
    else u != "" && UrlRest(PassState(p.verb, u))
  }

  predicate KeptAfter(u: string, m: Effect) {
    !m.next.Error? ==> Kept(Target(u, m.out), m.p)
  }

  lemma MicroKeeps(u: string, p: Parser, ch: char)
    requires Kept(u, p)
    ensures KeptAfter(u, Micro(p, ch))
  {
    hide Kept, RequestLine, HeaderLines, BodyPart, KeptAfter, Untouched;
    if InHeaderLines(p.state) {
      LineUntouched(p, ch);
      StaysKept(u, p, HeaderLines(p, ch));
    } else if InBody(p.state) {
      BodyUntouched(p, ch);
      StaysKept(u, p, BodyPart(p, ch));
    } else if InVersion(p.state) {
      VersionUntouched(p, ch);
      StaysKept(u, p, RequestLine(p, ch));
    } else if MarkOf(p.state) == Some(Url) {
      UrlKeeps(u, p, ch);
    } else {
      StartKeeps(u, p, ch);
    }
  }

  /** Behind the URL nothing touches it. */
  predicate Untouched(p: Parser, m: Effect) {
    !m.next.Error? ==>
      && m.p.verb == p.verb
      && (m.out == [] || (|m.out| == 1 && !m.out[0].Begin? && !(m.out[0].Byte? && m.out[0].field.Url?)))
      && Late(m.p.state)
  }

  predicate Late(s: State) {
    InHeaderLines(s) || InBody(s) || InVersion(s) || s.StartReq? || s.Dead?
  }

  lemma StaysKept(u: string, p: Parser, m: Effect)
    requires Kept(u, p) && Late(p.state) && !p.state.StartReq? && !p.state.Dead? && Untouched(p, m)
    ensures KeptAfter(u, m)
  {
    LateKept(u, p);
    if !m.next.Error? { LateKept(u, m.p); }
    OneAtom(u, if |m.out| == 1 then m.out[0] else Begin);
    assert |m.out| == 1 ==> m.out == [m.out[0]];
    hide PassState, Target, Kept;
  }

  lemma LateKept(u: string, p: Parser)
    requires Late(p.state)
    ensures Kept(u, p) == (p.state.StartReq? || p.state.Dead? || (u != "" && UrlRest(PassState(p.verb, u))))
  {
    hide PassState;
  }

  lemma LineUntouched(p: Parser, ch: char)
    requires InHeaderLines(p.state)
    ensures Untouched(p, HeaderLines(p, ch))
  {
    hide FieldMatch, FieldStart, ValueMatch, PushDigit, LineFlags, ShouldKeepAlive;
  }

  lemma BodyUntouched(p: Parser, ch: char)
    requires InBody(p.state)
    ensures Untouched(p, BodyPart(p, ch))
  {
    hide PushDigit, ShouldKeepAlive;
  }

  lemma VersionUntouched(p: Parser, ch: char)
    requires InVersion(p.state)
    ensures Untouched(p, RequestLine(p, ch))
  {
    hide RequestLine;
    VersionMoves(p, ch);
  }

  lemma UrlKeeps(u: string, p: Parser, ch: char)
    requires Kept(u, p) && MarkOf(p.state) == Some(Url)
    ensures KeptAfter(u, RequestLine(p, ch))
  {
    UrlKept(u, p);
    if ch == ' ' || ch == CR || ch == LF {
      UrlEnds(p, ch);
      if !RequestLine(p, ch).next.Error? { LateKept(u, RequestLine(p, ch).p); }
      OneAtom(u, Begin);
    } else {
      assert RequestLine(p, ch) == UrlByte(p, p.state, ch);
      UrlCharStates(p.state, ch);
      PassOn(p.verb, u, ch);
      OneAtom(u, Byte(Url, ch));
      var s := ParseUrlChar(p.state, ch);
      if !s.Dead? { UrlKept(u + [ch], p.(state := s)); }
      hide ParseUrlChar, UrlPrefix, UrlRest;
    }
    hide PassState, Target, Kept, RequestLine;
  }

  lemma UrlKept(u: string, p: Parser)
    requires UrlPrefix(p.state) || UrlRest(p.state)
    ensures Kept(u, p) == (u != "" && PassState(p.verb, u) == p.state) && !p.state.Dead?
  {
    hide PassState;
  }

  lemma UrlEnds(p: Parser, ch: char)
    requires MarkOf(p.state) == Some(Url) && (ch == ' ' || ch == CR || ch == LF)
    ensures var m := RequestLine(p, ch);
            && m.out == []
            && (!m.next.Error? ==> UrlRest(p.state) && m.p.verb == p.verb && Late(m.p.state)
                                   && !m.p.state.StartReq? && !m.p.state.Dead?)
  {
    assert RequestLine(p, ch) == InUrl(p, ch);
    hide RequestLine;
  }

  lemma StartKeeps(u: string, p: Parser, ch: char)
    requires Kept(u, p)
    requires p.state.StartReq? || p.state.Dead? || p.state.ReqMethod? || p.state.ReqSpacesBeforeUrl?
    ensures KeptAfter(u, RequestLine(p, ch))
  {
    OneAtom(u, Begin);
    OneAtom(u, Byte(Url, ch));
    if p.state.ReqSpacesBeforeUrl? {
      PassStart(p.verb);
      PassOn(p.verb, u, ch);
      UrlCharStates(ReqSpacesBeforeUrl, ch);
      UrlCharStates(ReqServerStart, ch);
    }
    hide PassState, Target, ParseUrlChar, Spelling, FirstCandidate, NextCandidate;
  }

  lemma {:induction false} SettleKeeps(u: string, p: Parser, ch: char)
    requires Kept(u, p)
    ensures KeptAfter(u, Settle(p, ch))
    decreases Rank(p.state)
  {
    MicroKeeps(u, p, ch);
    hide Micro, Kept;
    var m := Micro(p, ch);
    if m.next.Reexecute? {
      SettleKeeps(Target(u, m.out), m.p, ch);
      TargetConcat(u, m.out, Settle(m.p, ch).out);
    }
  }

  lemma StepKeeps(u: string, p: Parser, ch: char)
    requires Kept(u, p)
    ensures KeptAfter(u, Step(p, ch))
  {
    hide Settle;
    if !Overflows(p) { SettleKeeps(u, Count(p), ch); }
  }

  lemma {:induction false} RunKeeps(u: string, p: Parser, held: nat, data: string)
    requires Kept(u, p)
    ensures var r := Run(p, held, data); !r.end.Error? ==> Kept(Target(u, r.out), r.p)
    decreases |data|
  {
    hide Step, Kept;
    if data != "" {
      StepKeeps(u, p, data[0]);
      var m := Step(p, data[0]);
      if m.next.Advance? {
        RunKeeps(Target(u, m.out), m.p, Hold(held, m), data[1..]);
        TargetConcat(u, m.out, Run(m.p, Hold(held, m), data[1..]).out);
      }
    }
  }

  predicate InMessage(s: State) {
    !s.StartReq? && !s.Dead? && !s.ReqMethod? && !s.ReqSpacesBeforeUrl?
  }

  /** In every run without error, the URL bytes delivered for the current message never drive the first
      pass of `http_parser_parse_url` into s_dead; behind the URL, they end it in a state in which a URL
      may end. */
  lemma DeliveredUrlLives(data: string)
    ensures var r := Run(INITIAL, 0, data); var u := Target("", r.out);
            && (!r.end.Error? && InMessage(r.p.state) ==> u != "" && !PassState(r.p.verb, u).Dead?)
            && (!r.end.Error? && (InHeaderLines(r.p.state) || InBody(r.p.state)) ==> UrlRest(PassState(r.p.verb, u)))
  {
    RunKeeps("", INITIAL, 0, data);
    hide Run, PassState;
    var s := Run(INITIAL, 0, data).p.state;
    NotDead(s);
    NotDead(PassState(Run(INITIAL, 0, data).p.verb, Target("", Run(INITIAL, 0, data).out)));
    LateIsNoUrl(s);
  }

  lemma NotDead(s: State)
    ensures UrlPrefix(s) || UrlRest(s) ==> !s.Dead?
  {
  }

  lemma LateIsNoUrl(s: State)
    ensures InHeaderLines(s) || InBody(s) ==> !UrlPrefix(s) && !UrlRest(s) && !s.StartReq? && !s.Dead?
  {
  }
}
