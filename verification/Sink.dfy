/** The local variables of a call: the marks and the callbacks made so far. */
module Sinks {
  import opened Options
  import opened Parser
  import opened Trace

  datatype Slot = Slot(field: Field, at: nat)

  /** The four mark pointers of the C code, of which at most one is ever set: that no MARK and no
      CALLBACK_DATA meets the mark of another field is the precondition of `Mark` and `Deliver`. */
  datatype Sink = Sink(mark: Option<Slot>, log: seq<Call>) {

    predicate Only(f: Field) {
      mark.Some? ==> mark.value.field == f
    }

    predicate Reaches(p: nat) {
      mark.Some? ==> mark.value.at <= p
    }

    /** MARK: non-destructive if the mark is already set. */
    function Mark(f: Field, p: nat): Sink
      requires Only(f)
    {
      if mark.Some? then this else Sink(Some(Slot(f, p)), log)
    }

    /** CALLBACK_DATA for the bytes before p; nothing happens without a mark. */
    function Deliver(f: Field, p: nat): Sink
      requires Only(f) && Reaches(p)
    {
      if mark.Some? then Sink(None, log + [Data(f, mark.value.at, p - mark.value.at)]) else this
    }

    /** CALLBACK_NOTIFY. */
    function Tell(a: Atom): Sink {
      Sink(mark, log + [Notify(a)])
    }

    /** Everything delivered or pending lies before p, the pending bytes last. */
    ghost predicate Before(p: nat) {
      InOrder(log, if mark.Some? then mark.value.at else p) && Reaches(p)
    }

    /** Only the mark of the current state can be set; that of a text field is set. */
    ghost predicate Fits(s: State) {
      && (mark.Some? ==> MarkOf(s) == Some(mark.value.field))
      && (TextMark(s).Some? ==> mark.Some?)
    }

    function Pending(p: nat): nat {
      if mark.Some? && mark.value.at <= p then p - mark.value.at else 0
    }

    /** The trace assigned so far: what was delivered, and what is pending behind the mark. */
    ghost function Shown(data: string, p: nat): seq<Atom>
      requires p <= |data| && Before(p)
    {
      InOrderWidens(log, if mark.Some? then mark.value.at else p, |data|);
      if mark.Some? then Atoms(data, log) + Bytes(mark.value.field, data[mark.value.at..p]) else Atoms(data, log)
    }
  }

  /** The field whose mark the state itself sets; the body's is set by the bulk reads. */
  function TextMark(s: State): Option<Field> {
    if MarkOf(s) == Some(Body) then None else MarkOf(s)
  }

  predicate Bulk(s: State) {
    s.BodyIdentity? || s.ChunkData?
  }

  /** How a byte outside the bulk reads changes the sink. */
  datatype Touch = Keep | Mark(field: Field) | Flush(field: Field) | Blank | Tell(a: Atom)

  /** The macro that a pass through the switch runs: the states before and after decide it. */
  function TouchOf(s: State, m: Effect): Touch {
    if TextMark(m.p.state).Some? then Touch.Mark(MarkOf(m.p.state).value)
    else if MarkOf(s).Some? then Flush(MarkOf(s).value)
    else if s.HeaderValueStart? && !m.p.state.HeaderValueStart? then Blank
    else if m.out != [] then Touch.Tell(m.out[0])
    else Keep
  }

  /** The sink after the macro, for the byte at p. */
  function Apply(k: Sink, t: Touch, p: nat): Sink {
    match t
    case Keep => k
    case Mark(f) => if k.Only(f) then k.Mark(f, p) else k
    case Flush(f) => if k.Only(f) && k.Reaches(p) then k.Deliver(f, p) else k
    case Blank => if k.mark.None? then k.Mark(Value, p).Deliver(Value, p) else k
    case Tell(a) => k.Tell(a)
  }

  /** The atoms that belong to a macro: outside the body, a byte is assigned to the field whose mark
      is set afterwards. */
  function Gains(t: Touch, ch: char): seq<Atom> {
    match t
    case Mark(f) => [Byte(f, ch)]
    case Tell(a) => [a]
    case _ => []
  }

  lemma MicroTouches(p: Parser, ch: char)
    requires !Micro(p, ch).next.Error? && !Bulk(p.state)
    ensures Touches(p, ch, Micro(p, ch))
  {
    hide HeaderLines, BodyPart, RequestLine, Touches, MarkOf;
    if p.state.HeaderField? || p.state.HeaderValueStart? || p.state.HeaderValue? { TextTouches(p, ch); }
    else if InHeaderLines(p.state) { HeaderLinesTouch(p, ch); }
    else if InBody(p.state) { BodyTouches(p, ch); }
    else if p.state.ReqSpacesBeforeUrl? { SpacesTouch(p, ch); }
    else if UrlPrefix(p.state) || UrlRest(p.state) { UrlTouches(p, ch); }
    else { RequestLineTouches(p, ch); }
  }

  /** A pass through the switch assigns what its macro stands for, and never moves from one field
      to another without a state in between that has no mark. */
  ghost predicate Touches(p: Parser, ch: char, m: Effect) {
    var t := TouchOf(p.state, m);
    && m.out == Gains(t, ch)
    && (t.Mark? ==> m.next.Advance? && (MarkOf(p.state).None? || MarkOf(p.state) == Some(t.field)))
    && (!t.Mark? && MarkOf(m.p.state).Some? ==> t.Keep? && m.next.Advance?)
    && (t.Tell? ==> !t.a.Byte?)
  }

  lemma TextTouches(p: Parser, ch: char)
    requires p.state.HeaderField? || p.state.HeaderValueStart? || p.state.HeaderValue?
    requires !HeaderLines(p, ch).next.Error?
    ensures Touches(p, ch, HeaderLines(p, ch))
  {
  }

  lemma HeaderLinesTouch(p: Parser, ch: char)
    requires InHeaderLines(p.state) && !HeaderLines(p, ch).next.Error?
    requires !p.state.HeaderField? && !p.state.HeaderValueStart? && !p.state.HeaderValue?
    ensures Touches(p, ch, HeaderLines(p, ch))
  {
    hide MarkOf, LineFlags, FieldStart;
    LineMarks();
    RequestMarks();
    BodyMarks();
  }

  lemma BodyTouches(p: Parser, ch: char)
    requires InBody(p.state) && !Bulk(p.state) && !BodyPart(p, ch).next.Error?
    ensures Touches(p, ch, BodyPart(p, ch))
  {
    hide MarkOf, PushDigit;
    BodyMarks();
  }

  lemma SpacesTouch(p: Parser, ch: char)
    requires p.state.ReqSpacesBeforeUrl? && !RequestLine(p, ch).next.Error?
    ensures Touches(p, ch, RequestLine(p, ch))
  {
    hide MarkOf, ParseUrlChar;
    var s := if p.verb.CONNECT? then ReqServerStart else p.state;
    UrlCharStates(s, ch);
    UrlMark(ParseUrlChar(s, ch));
    RequestMarks();
  }

  lemma UrlTouches(p: Parser, ch: char)
    requires UrlPrefix(p.state) || UrlRest(p.state)
    requires !RequestLine(p, ch).next.Error?
    ensures Touches(p, ch, RequestLine(p, ch))
  {
    hide MarkOf, ParseUrlChar;
    UrlCharStates(p.state, ch);
    UrlMark(ParseUrlChar(p.state, ch));
    UrlMark(p.state);
    RequestMarks();
  }

  lemma RequestLineTouches(p: Parser, ch: char)
    requires !InHeaderLines(p.state) && !InBody(p.state) && !RequestLine(p, ch).next.Error?
    requires !p.state.ReqSpacesBeforeUrl? && !UrlPrefix(p.state) && !UrlRest(p.state)
    ensures Touches(p, ch, RequestLine(p, ch))
  {
    hide MarkOf, FirstCandidate, NextCandidate, Spelling;
    RequestMarks();
    VersionMarks();
  }

  /** Running the macro shows exactly the atoms that the byte was assigned. */
  lemma ApplyShows(k: Sink, t: Touch, data: string, p: nat, p1: nat)
    requires p < |data| && p <= p1 <= p + 1 && k.Before(p)
    requires t.Mark? || t.Flush? ==> k.Only(t.field)
    requires !t.Mark? && !t.Flush? ==> k.mark.None?
    requires (t.Mark? ==> p1 == p + 1) && (t.Tell? ==> !t.a.Byte?)
    ensures var k1 := Apply(k, t, p);
            && k1.Before(p1) && k1.Shown(data, p1) == k.Shown(data, p) + Gains(t, data[p])
            && (if t.Mark? then k1.mark.Some? && k1.Pending(p1) == k.Pending(p) + 1 else k1.mark.None?)
  {
    hide InOrder, Atoms, Sink.Shown;
    match t
    case Mark(f) => MarkShows(k, f, data, p);
    case Flush(f) => FlushShows(k, f, data, p, p1);
    case Blank => BlankShows(k, data, p, p1);
    case Tell(a) => TellShows(k, a, data, p, p1);
    case Keep => KeepShows(k, data, p, p1);
  }

  lemma KeepShows(k: Sink, data: string, p: nat, p1: nat)
    requires p <= p1 <= |data| && k.Before(p) && k.mark.None?
    ensures k.Before(p1) && k.Shown(data, p1) == k.Shown(data, p)
  {
    hide Atoms, InOrder;
    InOrderWidens(k.log, p, p1);
  }

  lemma MarkShows(k: Sink, f: Field, data: string, p: nat)
    requires p < |data| && k.Before(p) && k.Only(f)
    ensures var k1 := k.Mark(f, p);
            && k1.Before(p + 1) && k1.Shown(data, p + 1) == k.Shown(data, p) + [Byte(f, data[p])]
            && k1.Pending(p + 1) == k.Pending(p) + 1
  {
    hide Atoms, InOrder;
    var at := if k.mark.Some? then k.mark.value.at else p;
    assert Bytes(f, data[at..p + 1]) == Bytes(f, data[at..p]) + [Byte(f, data[p])];
  }

  lemma FlushShows(k: Sink, f: Field, data: string, p: nat, p1: nat)
    requires p <= p1 <= |data| && k.Before(p) && k.Only(f)
    ensures k.Deliver(f, p).Before(p1) && k.Deliver(f, p).Shown(data, p1) == k.Shown(data, p)
  {
    hide Atoms, InOrder;
    if k.mark.Some? { AtomsData(data, k.log, f, k.mark.value.at, p); }
    InOrderWidens(k.Deliver(f, p).log, p, p1);
  }

  lemma BlankShows(k: Sink, data: string, p: nat, p1: nat)
    requires p <= p1 <= |data| && k.Before(p) && k.mark.None?
    ensures var k1 := k.Mark(Value, p).Deliver(Value, p);
            k1.Before(p1) && k1.Shown(data, p1) == k.Shown(data, p)
  {
    hide Atoms, InOrder;
    AtomsData(data, k.log, Value, p, p);
    InOrderWidens(k.Mark(Value, p).Deliver(Value, p).log, p, p1);
  }

  lemma TellShows(k: Sink, a: Atom, data: string, p: nat, p1: nat)
    requires p <= p1 <= |data| && k.Before(p) && k.mark.None? && !a.Byte?
    ensures k.Tell(a).Before(p1) && k.Tell(a).Shown(data, p1) == k.Shown(data, p) + [a]
  {
    hide Atoms, InOrder;
    AtomsNotify(data, k.log, a, p);
    InOrderWidens(k.Tell(a).log, p, p1);
  }
}
