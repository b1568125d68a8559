/** When the handler of a connection is given the first request whatever follows it. */
module Handlers {
  import opened Parser
  import opened Trace
  import opened Split
  import opened Methods
  import opened Urls
  import opened RequestLines
  import opened Requests
  import opened Wrapper

  /** Whatever follows, the handler is given exactly the first request if and only if that closes or
      upgrades the connection, or its trailer has used up the header limit but for four bytes. */
  lemma HandlerIsSafe(r: Request)
    requires WellFormed(r) && |PrintHead(r)| <= HTTP_MAX_HEADER_SIZE
    ensures (forall more :: var trace := Events(Print(r) + more);
                            Text(Url, trace) == r.target && Text(Body, trace) == Decoded(r.content))
            <==> Upgrades(r) || !StaysOpen(r) || LeftOver(r) + 5 > HTTP_MAX_HEADER_SIZE
  {
    hide Run, Text, Print, PrintHead, WellFormed, Decoded, Upgrades, StaysOpen, HeadFits, Events, EventsFrom, LeftOver;
    HeadParts(r);
    forall more
      ensures var trace := Events(Print(r) + more); var further := EventsFrom(LeftOver(r), more);
              Text(Url, trace) == r.target && Text(Body, trace) == Decoded(r.content) <==>
              Upgrades(r) || !StaysOpen(r) || (Text(Url, further) == "" && Text(Body, further) == "")
    {
      HandlerGetsRequest(r, more);
    }
    if LeftOver(r) + 5 <= HTTP_MAX_HEADER_SIZE {
      TargetFollows(LeftOver(r));
    } else {
      forall more
        ensures Text(Url, EventsFrom(LeftOver(r), more)) == "" && Text(Body, EventsFrom(LeftOver(r), more)) == ""
      {
        NothingFollows(LeftOver(r), more);
      }
    }
  }

  /** The shortest bytes that deliver a byte of a target. */
  lemma TargetFollows(k: nat)
    requires k + 5 <= HTTP_MAX_HEADER_SIZE
    ensures Text(Url, EventsFrom(k, "GET /")) == "/"
  {
    hide Run, Text, Held;
    var p := INITIAL.(nread := k);
    RunMethod(p, GET);
    assert OnWire(GET) + " " == "GET ";
    var q := Run(p, 0, "GET ").p;
    SlashTarget();
    RunTarget(q, "/");
    RunJoin(p, "GET ", q, [Begin], "/", Run(q, 0, "/"));
    assert "GET " + "/" == "GET /";
    TextConcat(Url, [Begin], Bytes(Url, "/"));
    PlainText(Url, Begin);
    TextBytes(Url, Url, "/");
  }

  lemma SlashTarget()
    ensures !PassState(GET, "/").Dead?
  {
    PassStart(GET);
    PassOn(GET, "", '/');
    assert "" + ['/'] == "/";
  }

  /** A parser between two messages, or in the next request line, whose header count leaves no room for
      a target. */
  predicate Starved(p: Parser) {
    || (p.state.StartReq? && p.nread + 5 > HTTP_MAX_HEADER_SIZE)
    || (p.state.ReqMethod? && p.index > 0 && p.nread + 5 > HTTP_MAX_HEADER_SIZE + p.index)
    || (p.state.ReqSpacesBeforeUrl? && p.nread >= HTTP_MAX_HEADER_SIZE)
  }

  lemma StarvedStep(p: Parser, ch: char)
    requires Starved(p)
    ensures var m := Step(p, ch);
            (m.out == [] || m.out == [Begin]) && !m.next.Leave? && (m.next.Advance? ==> Starved(m.p))
  {
    hide HeaderLines, BodyPart, RequestLine, AtStartReq, AtReqMethod;
    if !Overflows(p) {
      assert Micro(Count(p), ch) == RequestLine(Count(p), ch);
      StarvedLine(Count(p), ch);
    }
  }

  lemma StarvedLine(p: Parser, ch: char)
    requires p.nread > 0 && Starved(p.(nread := p.nread - 1)) && p.nread <= HTTP_MAX_HEADER_SIZE
    ensures var m := RequestLine(p, ch);
            (m.out == [] || m.out == [Begin]) && !m.next.Leave? && (m.next.Advance? ==> Starved(m.p))
  {
    hide FirstCandidate, NextCandidate, Spelling;
    WireTail(p.verb, p.index);
  }

  lemma {:induction false} StarvedRun(p: Parser, held: nat, data: string)
    requires Starved(p)
    ensures forall a <- Run(p, held, data).out :: a == Begin
    decreases |data|
  {
    hide Step, Starved;
    if data != "" {
      StarvedStep(p, data[0]);
      var m := Step(p, data[0]);
      if m.next.Advance? { StarvedRun(m.p, Hold(held, m), data[1..]); }
    }
  }

  lemma {:induction false} BeginningsHaveNoText(f: Field, trace: seq<Atom>)
    requires forall a <- trace :: a == Begin
    ensures Text(f, trace) == ""
    decreases |trace|
  {
    if trace != [] {
      var n := |trace| - 1;
      assert trace[n] in trace && forall a <- trace[..n] :: a in trace;
      BeginningsHaveNoText(f, trace[..n]);
    }
  }

  lemma NothingFollows(k: nat, more: string)
    requires k + 5 > HTTP_MAX_HEADER_SIZE
    ensures Text(Url, EventsFrom(k, more)) == "" && Text(Body, EventsFrom(k, more)) == ""
  {
    hide Run, Text;
    var r := Run(INITIAL.(nread := k), 0, more);
    StarvedRun(INITIAL.(nread := k), 0, more);
    assert forall a <- EventsFrom(k, more) :: a in r.out;
    BeginningsHaveNoText(Url, EventsFrom(k, more));
    BeginningsHaveNoText(Body, EventsFrom(k, more));
  }
}
