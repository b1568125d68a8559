/** The consumer of the parser: `CHttpParserWrapper`, which parses the whole growing input buffer of a
    connection again on every read, until a message is complete. */
module Wrapper {
  import opened Parser
  import opened Trace
  import opened Split
  import opened Sinks
  import opened Execute
  import opened Invariant
  import opened Grammar
  import opened Pipeline
  import opened Framing
  import opened Lines
  import opened Requests

  /** The bytes that the callbacks of field f receive, in order. */
  function Text(f: Field, trace: seq<Atom>): string
    decreases |trace|
  {
    if trace == [] then ""
    else
      var n := |trace| - 1;
      match trace[n]
      case Byte(g, c) => if g == f then Text(f, trace[..n]) + [c] else Text(f, trace[..n])
      case _ => Text(f, trace[..n])
  }

  lemma {:induction false} TextConcat(f: Field, a: seq<Atom>, b: seq<Atom>)
    ensures Text(f, a + b) == Text(f, a) + Text(f, b)
    decreases |b|
  {
    if b == [] {
      assert a + b == a;
    } else {
      var n := |b| - 1;
      TextConcat(f, a, b[..n]);
      assert (a + b)[..|a| + n] == a + b[..n];
    }
  }

  lemma {:induction false} TextBytes(f: Field, g: Field, s: string)
    ensures Text(f, Bytes(g, s)) == if f == g then s else ""
    decreases |s|
  {
    if s != "" {
      var n := |s| - 1;
      TextBytes(f, g, s[..n]);
      assert Bytes(g, s) == Bytes(g, s[..n]) + [Byte(g, s[n])];
      assert Bytes(g, s)[..n] == Bytes(g, s[..n]);
    }
  }

  /** The events of parsing a buffer from scratch. */
  function Events(buf: string): seq<Atom> {
    Delivered(Run(INITIAL, 0, buf))
  }

  predicate IsReadAll(buf: string) {
    Complete in Events(buf)
  }

  class HttpParserWrapper {
    const parser: HttpParser
    var url: string
    var bodyContent: string
    var readAll: bool

    constructor ()
      ensures fresh(parser)
    {
      parser := new HttpParser();
    }

    method OnUrl(at: string)
      modifies this`url
      ensures url == old(url) + at
    {
      url := url + at;
    }

    method OnBody(at: string)
      modifies this`bodyContent
      ensures bodyContent == old(bodyContent) + at
    {
      bodyContent := bodyContent + at;
    }

    method OnMessageComplete()
      modifies this`readAll
      ensures readAll
    {
      readAll := true;
    }

    /** What the three fields hold once the callbacks of a trace have been made. */
    ghost predicate Shows(trace: seq<Atom>)
      reads this
    {
      url == Text(Url, trace) && bodyContent == Text(Body, trace) && readAll == (Complete in trace)
    }

    /** One callback of the parser. */
    method On(buf: string, call: Call, ghost before: seq<Atom>)
      requires if call.Data? then call.at + call.len <= |buf| else !call.a.Byte?
      requires Shows(before)
      modifies this`url, this`bodyContent, this`readAll
      ensures Shows(before + Carries(buf, call))
    {
      if call.Data? {
        var text := buf[call.at..call.at + call.len];
        TextConcat(Url, before, Bytes(call.field, text));
        TextConcat(Body, before, Bytes(call.field, text));
        TextBytes(Url, call.field, text);
        TextBytes(Body, call.field, text);
        NoComplete(call.field, text);
        if call.field.Url? { OnUrl(text); }
        if call.field.Body? { OnBody(text); }
      } else {
        NotifyKeepsText(Url, before, call.a);
        NotifyKeepsText(Body, before, call.a);
        if call.a.Complete? { OnMessageComplete(); }
      }
    }

    /** `ParseHttpContent`: nothing of an earlier call survives, so the result is a function of the
        bytes. */
    method ParseHttpContent(buf: string)
      modifies this, parser
      ensures Shows(Events(buf)) && readAll == IsReadAll(buf)
    {
      hide Run, Text, Atoms, InOrder;
      parser.Init();
      readAll, url, bodyContent := false, "", "";
      InitialIsSound();
      var n, log := parser.Execute(buf);
      TextOfNothing();
      NothingForNothing(buf);
      assert log[..0] == [];
      for i := 0 to |log|
        invariant InOrder(log[..i], |buf|) && Shows(Atoms(buf, log[..i]))
      {
        PrefixInOrder(log, i, |buf|);
        AtomsSnoc(buf, log, i);
        On(buf, log[i], Atoms(buf, log[..i]));
      }
      assert log[..|log|] == log;
    }
  }

  /** The atoms that one call stands for. */
  function Carries(buf: string, call: Call): seq<Atom>
    requires call.Data? ==> call.at + call.len <= |buf|
  {
    match call
    case Notify(a) => [a]
    case Data(f, at, len) => Bytes(f, buf[at..at + len])
  }

  lemma AtomsSnoc(buf: string, log: seq<Call>, i: nat)
    requires i < |log| && InOrder(log, |buf|)
    ensures InOrder(log[..i], |buf|) && InOrder(log[..i + 1], |buf|)
    ensures if log[i].Data? then log[i].at + log[i].len <= |buf| else !log[i].a.Byte?
    ensures Atoms(buf, log[..i + 1]) == Atoms(buf, log[..i]) + Carries(buf, log[i])
  {
    hide Atoms, InOrder, Carries;
    PrefixInOrder(log, i + 1, |buf|);
    LastAtoms(buf, log[..i + 1]);
    assert log[..i + 1][..i] == log[..i];
  }

  lemma LastAtoms(buf: string, log: seq<Call>)
    requires log != [] && InOrder(log, |buf|)
    ensures var front := log[..|log| - 1]; var c := log[|log| - 1];
            && InOrder(front, |buf|) && (if c.Data? then c.at + c.len <= |buf| else !c.a.Byte?)
            && Atoms(buf, log) == Atoms(buf, front) + Carries(buf, c)
  {
    PrefixInOrder(log, |log| - 1, |buf|);
    PrefixInOrder(log, |log|, |buf|);
  }

  lemma TextOfNothing()
    ensures forall f :: Text(f, []) == ""
  {
  }

  lemma InitialIsSound()
    ensures Inv(INITIAL)
  {
  }

  lemma NothingForNothing(buf: string)
    ensures Events("") == [] && InOrder([], |buf|) && Atoms(buf, []) == []
  {
  }

  lemma NotifyKeepsText(f: Field, trace: seq<Atom>, a: Atom)
    requires !a.Byte?
    ensures Text(f, trace + [a]) == Text(f, trace)
  {
    assert (trace + [a])[..|trace|] == trace;
  }

  lemma {:induction false} PrefixInOrder(log: seq<Call>, i: nat, hi: nat)
    requires i <= |log| && InOrder(log, hi)
    ensures InOrder(log[..i], hi)
    ensures i > 0 ==> if log[i - 1].Data? then log[i - 1].at + log[i - 1].len <= hi else !log[i - 1].a.Byte?
    decreases |log|
  {
    if i == |log| {
      assert log[..i] == log;
    } else {
      var front := log[..|log| - 1];
      var c := log[|log| - 1];
      if c.Data? { InOrderWidens(front, c.at, hi); }
      PrefixInOrder(front, i, hi);
      assert front[..i] == log[..i];
    }
  }

  // ---------------------------------------------------------------- a complete message stays complete

  /** A byte read from state s leaves nothing but bytes of its field behind the mark. */
  ghost predicate LeavesBytes(s: State, m: Effect) {
    if m.next.Error? then m.out == []
    else MarkOf(m.p.state).Some? ==> m.out == [] || (|m.out| == 1 && m.out[0].Byte?) || MarkOf(s).None?
  }

  lemma {:induction false} SettleLeavesBytes(p: Parser, ch: char)
    requires Sound(p, 1)
    ensures LeavesBytes(p.state, Settle(p, ch))
    decreases Rank(p.state)
  {
    hide Micro, Sound, MarkOf, TouchOf, Touches;
    MicroKeepsSound(p, ch);
    var m := Micro(p, ch);
    if Bulk(p.state) {
      BulkLeavesBytes(p, ch);
    } else if m.next.Reexecute? {
      JumpsBack(p, ch);
      LineMarks();
      SettleLeavesBytes(m.p, ch);
      if !p.state.HeaderValueLws? { LineFeedSettles(m.p); }
    } else if !m.next.Error? {
      MicroTouches(p, ch);
      TouchLeavesBytes(p, ch);
    }
  }

  lemma TouchLeavesBytes(p: Parser, ch: char)
    requires var m := Micro(p, ch); Touches(p, ch, m) && m.next != Error
    ensures LeavesBytes(p.state, Micro(p, ch))
  {
    hide Micro;
  }

  lemma BulkLeavesBytes(p: Parser, ch: char)
    requires Bulk(p.state)
    ensures LeavesBytes(p.state, Settle(p, ch))
  {
    hide HeaderLines, RequestLine, ShouldKeepAlive, MarkOf;
    BodyMarks();
    var m := Micro(p, ch);
    if m.next.Reexecute? { assert Micro(m.p, ch) == EndMessage(m.p); }
  }

  lemma StepLeavesBytes(p: Parser, ch: char)
    requires Inv(p)
    ensures LeavesBytes(p.state, Step(p, ch))
  {
    hide Settle, Inv, Sound, MarkOf;
    StepKeepsInv(p, ch);
    if !Overflows(p) { SettleLeavesBytes(Count(p), ch); }
  }

  /** What is pending at the end of a call is never a notification. */
  lemma {:induction false} PendingAreBytes(p: Parser, held: nat, data: string)
    requires Inv(p) && (MarkOf(p.state).None? ==> held == 0)
    ensures var r := Run(p, held, data);
            forall i | 0 <= i < |r.out| && i >= |r.out| - r.held :: r.out[i].Byte?
    decreases |data|
  {
    hide Step, MarkOf, Inv;
    if data != "" {
      var m := Step(p, data[0]);
      StepLeavesBytes(p, data[0]);
      StepKeepsInv(p, data[0]);
      if m.next.Advance? {
        var h := Hold(held, m);
        PendingAreBytes(m.p, h, data[1..]);
        RunHeld(m.p, h, h, data[1..]);
      }
    }
  }

  /** Once a prefix of the input makes IsReadAll true, every longer buffer does, whatever follows. */
  lemma ReadAllStays(a: string, b: string)
    requires IsReadAll(a)
    ensures IsReadAll(a + b)
  {
    var one, first := Run(INITIAL, 0, a + b), Run(INITIAL, 0, a);
    hide Run, Inv;
    RunConcat(INITIAL, 0, a, b);
    if first.end.Advance? {
      InitialIsSound();
      PendingAreBytes(INITIAL, 0, a + b);
      var i :| 0 <= i < |first.out| && first.out[i] == Complete;
      assert one.out[i] == Complete;
    }
  }

  // ---------------------------------------------------------------- what the handler is given

  lemma MessageText(r: Request)
    ensures Text(Url, Message(r)) == r.target && Text(Body, Message(r)) == Decoded(r.content)
    ensures Complete in Message(r)
  {
    hide Text, LinesAtoms;
    var u, l, t := Bytes(Url, r.target), LinesAtoms(r.lines), LinesAtoms(Trailer(r.content));
    var b := Bytes(Body, Decoded(r.content));
    forall f: Field | f.Url? || f.Body? ensures Text(f, Message(r)) == Text(f, u) + Text(f, b) {
      LinesHaveNoText(f, r.lines);
      LinesHaveNoText(f, Trailer(r.content));
      PlainText(f, Begin);
      PlainText(f, HeadersComplete);
      TextConcat(f, [Begin], u);
      TextConcat(f, [Begin] + u, l);
      TextConcat(f, b, t);
      TextConcat(f, [HeadersComplete], b + t);
      NotifyKeepsText(f, [HeadersComplete] + (b + t), Complete);
      TextConcat(f, HeadAtoms(r), [HeadersComplete] + ContentAtoms(r.content) + [Complete]);
    }
    TextBytes(Url, Url, r.target);
    TextBytes(Body, Url, r.target);
    TextBytes(Url, Body, Decoded(r.content));
    TextBytes(Body, Body, Decoded(r.content));
  }

  lemma PlainText(f: Field, a: Atom)
    requires !a.Byte?
    ensures Text(f, [a]) == ""
  {
    NotifyKeepsText(f, [], a);
    assert [] + [a] == [a];
  }

  lemma {:induction false} LinesHaveNoText(f: Field, ls: seq<Line>)
    requires f.Url? || f.Body?
    ensures Text(f, LinesAtoms(ls)) == ""
    decreases |ls|
  {
    hide Text;
    if ls == [] {
      TextOfNothing();
    } else {
      var v := ls[0].first.value + FoldsValue(ls[0].folds);
      LinesHaveNoText(f, ls[1..]);
      TextBytes(f, Name, ls[0].name);
      TextBytes(f, Value, v);
      TextConcat(f, Bytes(Name, ls[0].name), Bytes(Value, v));
      TextConcat(f, LineAtoms(ls[0]), LinesAtoms(ls[1..]));
    }
  }

  /** A request is handed over when its last byte has arrived and not before, with its target as URL
      and its decoded body as content, for identity and chunked bodies alike. */
  lemma HandsOverRequest(r: Request, k: nat)
    requires WellFormed(r) && |PrintHead(r)| <= HTTP_MAX_HEADER_SIZE
    ensures var trace := Events(Print(r)); Text(Url, trace) == r.target && Text(Body, trace) == Decoded(r.content)
    ensures k <= |Print(r)| ==> (IsReadAll(Print(r)[..k]) <==> k == |Print(r)|)
  {
    hide Run, Text, Print, PrintHead, WellFormed, Message, Decoded;
    RequestRoundTrip(INITIAL, r);
    MessageText(r);
    var s := Print(r);
    assert s[..|s|] == s;
    if k < |s| {
      assert s[..k] + s[k..|s| - 1] == s[..|s| - 1];
      if IsReadAll(s[..k]) { ReadAllStays(s[..k], s[k..|s| - 1]); }
    }
  }

  /** Bytes that follow on a connection that the request closes, or on one that it upgrades, change
      nothing of what the handler is given. */
  lemma LastRequestStands(r: Request, more: string)
    requires WellFormed(r) && |PrintHead(r)| <= HTTP_MAX_HEADER_SIZE
    requires Upgrades(r) || !StaysOpen(r)
    ensures Events(Print(r) + more) == Message(r)
  {
    hide Run, Print, PrintHead, WellFormed, Message, Decoded, Upgrades, StaysOpen, HeadFits;
    HeadParts(r);
    RequestRoundTrip(INITIAL, r);
    RunConcat(INITIAL, 0, Print(r), more);
    var q := Run(INITIAL, 0, Print(r)).p;
    if !Upgrades(r) {
      ClosedForGood(q, 0, more);
      RunHeld(q, 0, 0, more);
    }
  }

  /** The events of a buffer for a fresh parser with k header bytes counted already. */
  function EventsFrom(k: nat, buf: string): seq<Atom> {
    Delivered(Run(INITIAL.(nread := k), 0, buf))
  }

  /** On a connection that stays open, bytes that are already in the buffer behind a request are parsed
      as a further request. */
  lemma FurtherEvents(r: Request, more: string)
    requires WellFormed(r) && |PrintHead(r)| <= HTTP_MAX_HEADER_SIZE
    requires !Upgrades(r) && StaysOpen(r)
    ensures Events(Print(r) + more) == Message(r) + EventsFrom(LeftOver(r), more)
  {
    hide Run, Print, PrintHead, WellFormed, Message, Upgrades, StaysOpen, HeadFits, Alike;
    HeadParts(r);
    RequestRoundTrip(INITIAL, r);
    RunConcat(INITIAL, 0, Print(r), more);
    var q := Run(INITIAL, 0, Print(r)).p;
    FreshStart(q, LeftOver(r));
    RunAlike(q, INITIAL.(nread := LeftOver(r)), 0, more);
    RunHeld(q, 0, 0, more);
    var x, y := Run(INITIAL, 0, Print(r) + more), Run(INITIAL.(nread := LeftOver(r)), 0, more);
    assert x.out == Message(r) + y.out && x.held == y.held <= |y.out| && x.end == y.end;
    assert (Message(r) + y.out)[..|x.out| - y.held] == Message(r) + y.out[..|y.out| - y.held];
  }

  /** So it is glued on, whether it is complete or refused: its target and body are appended to those of
      the first request. */
  lemma PipelinedRequestsGlue(r: Request, more: string)
    requires WellFormed(r) && |PrintHead(r)| <= HTTP_MAX_HEADER_SIZE
    requires !Upgrades(r) && StaysOpen(r)
    ensures var trace := Events(Print(r) + more); var further := EventsFrom(LeftOver(r), more);
            && IsReadAll(Print(r) + more)
            && Text(Url, trace) == r.target + Text(Url, further)
            && Text(Body, trace) == Decoded(r.content) + Text(Body, further)
    ensures LeftOver(r) == 0 || LeftOver(r) + |more| < HTTP_MAX_HEADER_SIZE ==>
            EventsFrom(LeftOver(r), more) == Events(more)
  {
    hide Run, Text, Print, PrintHead, WellFormed, Message, Decoded, Upgrades, StaysOpen;
    FurtherEvents(r, more);
    MessageText(r);
    TextConcat(Url, Message(r), EventsFrom(LeftOver(r), more));
    TextConcat(Body, Message(r), EventsFrom(LeftOver(r), more));
    if LeftOver(r) == 0 || LeftOver(r) + |more| < HTTP_MAX_HEADER_SIZE { CountWithinLimit(LeftOver(r), more); }
  }

  /** The handler is given exactly the target and the body of the first request if and only if that closes
      or upgrades the connection, or the bytes behind it carry no byte of a target or a body. */
  lemma HandlerGetsRequest(r: Request, more: string)
    requires WellFormed(r) && |PrintHead(r)| <= HTTP_MAX_HEADER_SIZE
    ensures var trace := Events(Print(r) + more); var further := EventsFrom(LeftOver(r), more);
            Text(Url, trace) == r.target && Text(Body, trace) == Decoded(r.content) <==>
            Upgrades(r) || !StaysOpen(r) || (Text(Url, further) == "" && Text(Body, further) == "")
  {
    hide Run, Text, Print, PrintHead, WellFormed, Message, Decoded, Upgrades, StaysOpen, HeadFits;
    HeadParts(r);
    if Upgrades(r) || !StaysOpen(r) {
      LastRequestStands(r, more);
      MessageText(r);
    } else {
      PipelinedRequestsGlue(r, more);
      SameWithout(r.target, Text(Url, EventsFrom(LeftOver(r), more)));
      SameWithout(Decoded(r.content), Text(Body, EventsFrom(LeftOver(r), more)));
    }
  }

  lemma SameWithout(s: string, t: string)
    ensures s + t == s <==> t == ""
  {
    assert |s + t| == |s| + |t|;
  }
}
