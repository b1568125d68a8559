/** A whole connection: any number of requests, sent back to back and cut anywhere. */
module Stream {
  import opened Parser
  import opened Split
  import opened Cuts
  import opened Requests

  function PrintAll(rs: seq<Request>): string
    decreases |rs|
  {
    if rs == [] then "" else Print(rs[0]) + PrintAll(rs[1..])
  }

  function Messages(rs: seq<Request>): seq<Atom>
    decreases |rs|
  {
    if rs == [] then [] else Message(rs[0]) + Messages(rs[1..])
  }

  /** Requests that may be sent on one connection, on which k header bytes are counted already: the heads
      fit the header limit, and all requests but the last keep the connection open. */
  predicate Sequence(k: nat, rs: seq<Request>)
    decreases |rs|
  {
    rs == [] ||
    (&& WellFormed(rs[0]) && k + |PrintHead(rs[0])| <= HTTP_MAX_HEADER_SIZE
     && (rs[1..] != [] ==> StaysOpen(rs[0]) && !Upgrades(rs[0]) && Sequence(LeftOver(rs[0]), rs[1..])))
  }

  /** How a connection stands behind the requests. */
  function EndOf(k: nat, rs: seq<Request>): (e: (Next, State))
    requires Sequence(k, rs)
    ensures !e.0.Error?
    decreases |rs|
  {
    if rs == [] then (Advance, StartReq)
    else if rs[1..] != [] then EndOf(LeftOver(rs[0]), rs[1..])
    else (if Upgrades(rs[0]) then Leave else Advance, if StaysOpen(rs[0]) then StartReq else Dead)
  }

  lemma {:induction false} RunRequests(p: Parser, rs: seq<Request>)
    requires p.state.StartReq? && p.errno.Ok? && Sequence(p.nread, rs)
    ensures var x := Run(p, 0, PrintAll(rs));
            && x == Result(x.p, |PrintAll(rs)|, Messages(rs), 0, x.end)
            && x.p.errno.Ok? && (x.end, x.p.state) == EndOf(p.nread, rs)
    decreases |rs|
  {
    hide Run, WellFormed, HeadFits, StaysOpen, Upgrades, Print, PrintHead, Message, LeftOver;
    if rs == [] {
      RunNothing(p, 0);
    } else {
      var r, rest := rs[0], rs[1..];
      HeadParts(r);
      RequestRoundTrip(p, r);
      var q := Run(p, 0, Print(r)).p;
      if rest == [] {
        assert Print(r) + PrintAll(rest) == Print(r) && Message(r) + Messages(rest) == Message(r);
      } else {
        RunRequests(q, rest);
        RunJoin(p, Print(r), q, Message(r), PrintAll(rest), Run(q, 0, PrintAll(rest)));
      }
    }
  }

  /** Requests sent back to back and cut into calls anywhere deliver exactly their messages, in order,
      unless a call is empty inside a request. */
  lemma RequestsAnySplit(rs: seq<Request>, pieces: seq<string>)
    requires Sequence(0, rs) && Concat(pieces) == PrintAll(rs) && NoEarlyEnd(INITIAL, pieces)
    ensures var calls := Calls(INITIAL, pieces);
            && calls.out == Messages(rs) && calls.used == |PrintAll(rs)| && calls.p.errno.Ok?
  {
    hide Run, Sequence, NoEarlyEnd;
    RunRequests(INITIAL, rs);
    AnySplit(INITIAL, pieces);
  }
}
