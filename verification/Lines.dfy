/** Header lines, folded or not: what they deliver, and what they say about the message. */
module Lines {
  import opened Chars
  import opened Parser
  import opened Trace
  import opened Split
  import opened Names
  import opened Values
  import opened Lengths

  /** A line of a value as it is sent: blanks, bytes, the line end. */
  datatype Part = Part(pad: string, value: string, eol: string)

  /** A header field: its name, its colon, which the parser does not insist on, the rest of its first line,
      and the lines that continue it. */
  datatype Line = Line(name: string, colon: bool, first: Part, folds: seq<Part>)

  /** What the header lines read so far say about the message. */
  datatype Facts = Facts(flags: Flags, length: nat)

  /** A line of the value of a field that means h. A Content-Length is a number that the parser takes. */
  predicate PartFits(h: HeaderState, x: Part) {
    && IsPad(x.pad) && IsEol(x.eol)
    && (x.value != "" ==>
          if h.ContentLength? then IsDecimal(x.value) && Guarded(10, Digits(x.value)).Some? else IsValue(x.value))
  }

  /** What a field that means h still means on the next line of its value: only a Content-Length goes on,
      unless the line had no value. */
  function Onward(h: HeaderState, x: Part): HeaderState {
    if h.ContentLength? && x.value != "" then h else General
  }

  /** A line without a value and with a bare LF cannot be continued. */
  predicate Folds(x: Part) {
    x.value != "" || x.eol == [CR, LF]
  }

  /** The lines that continue a value start with a blank. */
  predicate FoldsFit(h: HeaderState, folds: seq<Part>)
    decreases |folds|
  {
    folds != [] ==>
      && folds[0].pad != "" && PartFits(h, folds[0]) && (|folds| > 1 ==> Folds(folds[0]))
      && FoldsFit(Onward(h, folds[0]), folds[1..])
  }

  function MeaningOf(l: Line): HeaderState {
    Meaning(LowerName(l.name))
  }

  /** What the lines that continue a field can still mean: behind a name without a colon, all of it. */
  function Continued(l: Line): HeaderState {
    if l.colon then Onward(MeaningOf(l), l.first) else MeaningOf(l)
  }

  predicate FirstFits(l: Line) {
    if l.colon then PartFits(MeaningOf(l), l.first)
    else l.first.pad == "" && l.first.value == "" && IsEol(l.first.eol)
  }

  predicate LineFits(l: Line) {
    && IsName(l.name) && FirstFits(l)
    && (l.folds != [] ==> Folds(l.first)) && FoldsFit(Continued(l), l.folds)
  }

  function PrintPart(x: Part): string {
    x.pad + x.value + x.eol
  }

  function PrintFolds(folds: seq<Part>): string
    decreases |folds|
  {
    if folds == [] then "" else PrintPart(folds[0]) + PrintFolds(folds[1..])
  }

  /** The first line of a field. */
  function PrintFirst(l: Line): string {
    l.name + (if l.colon then ":" else "") + PrintPart(l.first)
  }

  function PrintLine(l: Line): string {
    PrintFirst(l) + PrintFolds(l.folds)
  }

  function FoldsValue(folds: seq<Part>): string
    decreases |folds|
  {
    if folds == [] then "" else folds[0].value + FoldsValue(folds[1..])
  }

  function LineAtoms(l: Line): seq<Atom> {
    Bytes(Name, l.name) + Bytes(Value, l.first.value + FoldsValue(l.folds))
  }

  /** The meaning of a line of a value. */
  function PartFacts(f: Facts, h: HeaderState, x: Part): Facts
    requires PartFits(h, x)
  {
    if x.value == "" then f
    else if h.ContentLength? then f.(length := Guarded(10, Digits(x.value)).value)
    else f.(flags := LineMeans(f.flags, h, x.value))
  }

  /** The meaning of the lines that continue a value, one by one: a number replaces the one before, and a
      keyword counts only where the field still means something, as a whole line. */
  function FoldsFacts(f: Facts, h: HeaderState, folds: seq<Part>): Facts
    requires FoldsFit(h, folds)
    decreases |folds|
  {
    if folds == [] then f else FoldsFacts(PartFacts(f, h, folds[0]), Onward(h, folds[0]), folds[1..])
  }

  function FirstFacts(f: Facts, l: Line): Facts
    requires FirstFits(l)
  {
    if l.colon then PartFacts(f, MeaningOf(l), l.first) else f
  }

  /** The meaning of a header field; the last Content-Length counts. */
  function LineFacts(f: Facts, l: Line): Facts
    requires LineFits(l)
  {
    FoldsFacts(FirstFacts(f, l), Continued(l), l.folds)
  }

  /** Below 2^64 - 1 the length is the number that the digits denote. */
  lemma LengthExact(f: Facts, h: HeaderState, x: Part)
    requires PartFits(h, x) && h.ContentLength? && x.value != ""
    ensures PartFacts(f, h, x).length == Numeral(10, Digits(x.value)) <==> Numeral(10, Digits(x.value)) < ULLONG_MAX
  {
    hide Guarded, Numeral, Digits;
    ExactBelowBound(10, Digits(x.value));
  }

  // ---------------------------------------------------------------- the lines of a value

  /** A header state that treats the value to come as h does. */
  predicate ActsAs(g: HeaderState, h: HeaderState) {
    && (g.ContentLength? <==> h.ContentLength?) && (g.TransferEncoding? <==> h.TransferEncoding?)
    && (g.Connection? <==> h.Connection?) && (g.Upgrade? <==> h.Upgrade?)
  }

  lemma MeansTheSame(f: Flags, g: HeaderState, h: HeaderState, v: string)
    requires ActsAs(g, h)
    ensures LineMeans(f, g, v) == LineMeans(f, h, v)
  {
    hide IsKeyword;
  }

  lemma MatcherActsAsMeaning(t: string)
    ensures ActsAs(Matcher(t), Meaning(t))
  {
  }

  /** The parser behind a line of a value, with n more bytes read. */
  ghost predicate BehindPart(p: Parser, q: Parser, n: nat, f: Facts, h: HeaderState, x: Part) {
    && q == p.(nread := p.nread + n, state := q.state, flags := f.flags, contentLength := f.length,
               headerState := q.headerState, index := q.index)
    && (if x.value == "" && x.eol == [LF] then q.state.HeaderFieldStart?
        else q.state.HeaderValueLws? && ActsAs(q.headerState, Onward(h, x)))
  }

  lemma RunNumberPart(p: Parser, x: Part)
    requires p.state.HeaderValueStart? && p.headerState.ContentLength? && IsEol(x.eol) && IsDecimal(x.value)
    requires Guarded(10, Digits(x.value)).Some? && p.nread + |x.value| + |x.eol| <= HTTP_MAX_HEADER_SIZE
    ensures var n := |x.value| + |x.eol|;
            Run(p, 0, x.value + x.eol) ==
            Result(p.(nread := p.nread + n, state := HeaderValueLws, index := 0,
                      contentLength := Guarded(10, Digits(x.value)).value), n, Bytes(Value, x.value), 0, Advance)
  {
    hide Run, Numeral, Guarded, Digits;
    ContentLengthExact(p, x.value, x.eol);
  }

  lemma RunPartValue(p: Parser, h: HeaderState, x: Part)
    requires p.state.HeaderValueStart? && PartFits(h, x) && ActsAs(p.headerState, h)
    requires p.nread + |x.value| + |x.eol| <= HTTP_MAX_HEADER_SIZE
    ensures var r := Run(p, 0, x.value + x.eol);
            && r == Result(r.p, |x.value| + |x.eol|, Bytes(Value, x.value), 0, Advance)
            && BehindPart(p, r.p, |x.value| + |x.eol|, PartFacts(Facts(p.flags, p.contentLength), h, x), h, x)
  {
    hide Run, Guarded, LineMeans, Digits, IsEol, ActsAs, IsKeyword;
    ActsLike(p.headerState, h, x);
    MeansTheSame(p.flags, p.headerState, h, x.value);
    if x.value == "" {
      RunEmptyValue(p, x.eol);
      assert x.value + x.eol == x.eol && Bytes(Value, x.value) == [];
    } else if h.ContentLength? {
      RunNumberPart(p, x);
    } else {
      RunWordPart(p, h, x);
    }
  }

  lemma RunWordPart(p: Parser, h: HeaderState, x: Part)
    requires p.state.HeaderValueStart? && PartFits(h, x) && ActsAs(p.headerState, h)
    requires x.value != "" && !h.ContentLength? && p.nread + |x.value| + |x.eol| <= HTTP_MAX_HEADER_SIZE
    ensures var r := Run(p, 0, x.value + x.eol);
            && r == Result(r.p, |x.value| + |x.eol|, Bytes(Value, x.value), 0, Advance)
            && BehindPart(p, r.p, |x.value| + |x.eol|, PartFacts(Facts(p.flags, p.contentLength), h, x), h, x)
  {
    hide Run, Guarded, LineMeans, Digits, IsEol, ActsAs, IsKeyword;
    ActsLike(p.headerState, h, x);
    MeansTheSame(p.flags, p.headerState, h, x.value);
    ValueExact(p, x.value, x.eol);
  }

  lemma ActsLike(g: HeaderState, h: HeaderState, x: Part)
    requires ActsAs(g, h)
    ensures g.ContentLength? <==> h.ContentLength?
    ensures ActsAs(General, Onward(h, x)) || (h.ContentLength? && x.value != "" && ActsAs(g, Onward(h, x)))
    ensures forall s {:trigger Spent(s)} :: Spent(s) && !(h.ContentLength? && x.value != "") ==> ActsAs(s, Onward(h, x))
  {
  }

  lemma RunPart(p: Parser, h: HeaderState, x: Part)
    requires p.state.HeaderValueStart? && PartFits(h, x) && ActsAs(p.headerState, h)
    requires p.nread + |PrintPart(x)| <= HTTP_MAX_HEADER_SIZE
    ensures var r := Run(p, 0, PrintPart(x));
            && r == Result(r.p, |PrintPart(x)|, Bytes(Value, x.value), 0, Advance)
            && BehindPart(p, r.p, |PrintPart(x)|, PartFacts(Facts(p.flags, p.contentLength), h, x), h, x)
  {
    hide Run, PartFacts, ActsAs;
    RunPad(p, x.pad);
    var q := p.(nread := p.nread + |x.pad|);
    RunPartValue(q, h, x);
    RunJoin(p, x.pad, q, [], x.value + x.eol, Run(q, 0, x.value + x.eol));
    assert PrintPart(x) == x.pad + (x.value + x.eol);
  }

  lemma BlankStep(p: Parser, ch: char)
    requires p.state.HeaderValueLws? && (ch == ' ' || ch == '\t') && p.nread < HTTP_MAX_HEADER_SIZE
    ensures Step(p, ch) == Step(p.(state := HeaderValueStart), ch)
  {
    hide RequestLine, BodyPart;
    ValueStartStep(p.(state := HeaderValueStart), ch);
    assert Micro(Count(p), ch) == AtLws(Count(p), ch);
  }

  /** A blank behind a line goes on with its value. */
  lemma RunFromFold(p: Parser, s: string)
    requires p.state.HeaderValueLws? && s != "" && (s[0] == ' ' || s[0] == '\t') && p.nread < HTTP_MAX_HEADER_SIZE
    ensures Run(p, 0, s) == Run(p.(state := HeaderValueStart), 0, s)
  {
    hide Step;
    BlankStep(p, s[0]);
  }

  /** Between two fields the parser waits to see whether the next line continues the last; a byte that
      is no blank starts a new one. */
  predicate LineStart(s: State) {
    s.HeaderFieldStart? || s.HeaderValueLws?
  }

  /** The parser behind header lines that establish facts f, with n more bytes read. */
  ghost predicate BehindLines(p: Parser, q: Parser, n: nat, f: Facts) {
    && LineStart(q.state)
    && q == p.(nread := p.nread + n, state := q.state, flags := f.flags, contentLength := f.length,
               headerState := q.headerState, index := q.index)
  }

  /** The lines that continue a value do to the parser what they mean, and deliver one value. */
  lemma {:induction false} RunFolds(p: Parser, h: HeaderState, folds: seq<Part>)
    requires LineStart(p.state) && FoldsFit(h, folds) && p.nread + |PrintFolds(folds)| <= HTTP_MAX_HEADER_SIZE
    requires folds != [] ==> p.state.HeaderValueLws? && ActsAs(p.headerState, h)
    ensures var s := PrintFolds(folds); var r := Run(p, 0, s);
            && r == Result(r.p, |s|, Bytes(Value, FoldsValue(folds)), 0, Advance)
            && BehindLines(p, r.p, |s|, FoldsFacts(Facts(p.flags, p.contentLength), h, folds))
    decreases |folds|
  {
    hide Run, PartFacts, ActsAs, PartFits, PrintPart;
    if folds == [] {
      RunNothing(p, 0);
      assert Bytes(Value, "") == [];
    } else {
      var x, s, rest := folds[0], PrintPart(folds[0]), PrintFolds(folds[1..]);
      BlankFirst(h, x);
      RunFromFold(p, s);
      var a := p.(state := HeaderValueStart);
      RunPart(a, h, x);
      var q := Run(a, 0, s).p;
      RunFolds(q, Onward(h, x), folds[1..]);
      RunJoin(p, s, q, Bytes(Value, x.value), rest, Run(q, 0, rest));
      var v, w := x.value, FoldsValue(folds[1..]);
      assert Bytes(Value, v + w) == Bytes(Value, v) + Bytes(Value, w);
    }
  }

  lemma BlankFirst(h: HeaderState, x: Part)
    requires PartFits(h, x) && x.pad != ""
    ensures |PrintPart(x)| > 0 && (PrintPart(x)[0] == ' ' || PrintPart(x)[0] == '\t')
  {
    assert PrintPart(x)[0] == x.pad[0];
  }

  // ---------------------------------------------------------------- header fields

  lemma LwsStep(p: Parser, ch: char)
    requires p.state.HeaderValueLws? && ch != ' ' && ch != '\t' && p.nread < HTTP_MAX_HEADER_SIZE
    ensures Step(p, ch) == Step(p.(state := HeaderFieldStart), ch)
  {
    hide RequestLine, BodyPart;
    var c := Count(p);
    var q := c.(state := HeaderFieldStart);
    assert Micro(c, ch) == Again(q, []);
    assert Settle(c, ch).out == [] + Settle(q, ch).out;
  }

  lemma RunFromLws(p: Parser, s: string)
    requires LineStart(p.state) && s != "" && s[0] != ' ' && s[0] != '\t' && p.nread < HTTP_MAX_HEADER_SIZE
    ensures Run(p, 0, s) == Run(p.(state := HeaderFieldStart), 0, s)
  {
    hide Step;
    if p.state.HeaderValueLws? { LwsStep(p, s[0]); }
  }

  lemma TokenIsNoBlank(c: char)
    requires Token(c) != '\0'
    ensures c != ' ' && c != '\t'
  {
  }

  lemma BareStep(p: Parser)
    requires p.state.HeaderField? && p.nread < HTTP_MAX_HEADER_SIZE
    ensures Step(p, CR) == Move(p.(nread := p.nread + 1, state := HeaderAlmostDone))
    ensures Step(p, LF) == Move(p.(nread := p.nread + 1, state := HeaderFieldStart))
  {
    assert Micro(Count(p), CR) == AtField(Count(p), CR) && Micro(Count(p), LF) == AtField(Count(p), LF);
  }

  lemma MatcherSetsNothing(f: Flags, t: string)
    ensures LineFlags(f, Matcher(t)) == f
  {
  }

  /** A name without a colon: behind a CR its meaning lasts for the lines that continue it. */
  lemma RunBareName(p: Parser, name: string, eol: string)
    requires p.state.HeaderFieldStart? && IsName(name) && IsEol(eol)
    requires p.nread + |name| + |eol| <= HTTP_MAX_HEADER_SIZE
    ensures var r := Run(p, 0, name + eol);
            && r == Result(r.p, |name| + |eol|, Bytes(Name, name), 0, Advance)
            && r.p == p.(nread := p.nread + |name| + |eol|, headerState := Matcher(LowerName(name)),
                         state := if eol == [LF] then HeaderFieldStart else HeaderValueLws, index := r.p.index)
  {
    hide Step, Run, Matcher, IsName, LowerName;
    RunName(p, name);
    var q := Run(p, 0, name).p;
    MatcherSetsNothing(q.flags, LowerName(name));
    RunConcat(p, 0, name, eol);
    RunBareEol(q, |name|, eol);
  }

  lemma RunBareEol(q: Parser, held: nat, eol: string)
    requires q.state.HeaderField? && IsEol(eol) && q.nread + |eol| <= HTTP_MAX_HEADER_SIZE
    requires LineFlags(q.flags, q.headerState) == q.flags
    ensures Run(q, held, eol) ==
            Result(q.(nread := q.nread + |eol|, state := if eol == [LF] then HeaderFieldStart else HeaderValueLws),
                   |eol|, [], 0, Advance)
  {
    hide Step, Run, LineFlags, MarkOf;
    LineMarks();
    BareStep(q);
    if eol == [LF] {
      RunOne(q, held, LF);
    } else {
      RunOne(q, held, CR);
      AlmostDoneLf(q.(nread := q.nread + 1, state := HeaderAlmostDone));
      assert eol == [CR] + [LF];
      RunSnoc(q, held, [CR], LF);
    }
  }

  /** The parser behind the first line of a field, with n more bytes read. */
  ghost predicate BehindFirst(p: Parser, q: Parser, n: nat, l: Line)
    requires FirstFits(l)
  {
    && BehindLines(p, q, n, FirstFacts(Facts(p.flags, p.contentLength), l))
    && (if Folds(l.first) then q.state.HeaderValueLws? && ActsAs(q.headerState, Continued(l))
        else q.state.HeaderFieldStart?)
  }

  lemma RunFirst(p: Parser, l: Line)
    requires p.state.HeaderFieldStart? && IsName(l.name) && FirstFits(l)
    requires p.nread + |PrintFirst(l)| <= HTTP_MAX_HEADER_SIZE
    ensures var r := Run(p, 0, PrintFirst(l));
            && r == Result(r.p, |PrintFirst(l)|, Bytes(Name, l.name) + Bytes(Value, l.first.value), 0, Advance)
            && BehindFirst(p, r.p, |PrintFirst(l)|, l)
  {
    hide Run, BehindFirst, FirstFits, PrintFirst;
    if l.colon { RunColonFirst(p, l); } else { RunBareFirst(p, l); }
  }

  lemma RunColonFirst(p: Parser, l: Line)
    requires p.state.HeaderFieldStart? && IsName(l.name) && FirstFits(l) && l.colon
    requires p.nread + |PrintFirst(l)| <= HTTP_MAX_HEADER_SIZE
    ensures var r := Run(p, 0, PrintFirst(l));
            && r == Result(r.p, |PrintFirst(l)|, Bytes(Name, l.name) + Bytes(Value, l.first.value), 0, Advance)
            && BehindFirst(p, r.p, |PrintFirst(l)|, l)
  {
    hide Run, Matcher, Meaning, ActsAs, PartFits, PartFacts, IsName, LowerName, PrintPart;
    MatcherActsAsMeaning(LowerName(l.name));
    RunNameColon(p, l.name);
    var b := Run(p, 0, l.name + ":").p;
    EolOf(MeaningOf(l), l.first);
    RunPart(b, MeaningOf(l), l.first);
    RunJoin(p, l.name + ":", b, Bytes(Name, l.name), PrintPart(l.first), Run(b, 0, PrintPart(l.first)));
  }

  lemma EolOf(h: HeaderState, x: Part)
    requires PartFits(h, x)
    ensures IsEol(x.eol)
  {
  }

  lemma RunBareFirst(p: Parser, l: Line)
    requires p.state.HeaderFieldStart? && IsName(l.name) && FirstFits(l) && !l.colon
    requires p.nread + |PrintFirst(l)| <= HTTP_MAX_HEADER_SIZE
    ensures var r := Run(p, 0, PrintFirst(l));
            && r == Result(r.p, |PrintFirst(l)|, Bytes(Name, l.name) + Bytes(Value, l.first.value), 0, Advance)
            && BehindFirst(p, r.p, |PrintFirst(l)|, l)
  {
    hide Run, Matcher, Meaning, ActsAs, PartFits, PartFacts, IsName, LowerName;
    MatcherActsAsMeaning(LowerName(l.name));
    RunBareName(p, l.name, l.first.eol);
    assert PrintFirst(l) == l.name + l.first.eol && Bytes(Value, l.first.value) == [];
  }

  /** A header field does to the parser what it means, and delivers its name and its value. */
  lemma RunLine(p: Parser, l: Line)
    requires LineStart(p.state) && LineFits(l) && p.nread + |PrintLine(l)| <= HTTP_MAX_HEADER_SIZE
    ensures var r := Run(p, 0, PrintLine(l));
            && r == Result(r.p, |PrintLine(l)|, LineAtoms(l), 0, Advance)
            && BehindLines(p, r.p, |PrintLine(l)|, LineFacts(Facts(p.flags, p.contentLength), l))
  {
    hide Run, FirstFacts, FoldsFacts, FirstFits, FoldsFit, PrintFirst, ActsAs, Continued, Folds, IsName, LineFits;
    NameFirst(l);
    RunFromLws(p, PrintFirst(l));
    var a := p.(state := HeaderFieldStart);
    RunFirst(a, l);
    var b := Run(a, 0, PrintFirst(l)).p;
    RunFolds(b, Continued(l), l.folds);
    var v, w := l.first.value, FoldsValue(l.folds);
    RunJoin(p, PrintFirst(l), b, Bytes(Name, l.name) + Bytes(Value, v), PrintFolds(l.folds),
            Run(b, 0, PrintFolds(l.folds)));
    assert Bytes(Name, l.name) + Bytes(Value, v) + Bytes(Value, w) == Bytes(Name, l.name) + Bytes(Value, v + w);
  }

  lemma NameFirst(l: Line)
    requires LineFits(l)
    ensures IsName(l.name) && FirstFits(l) && FoldsFit(Continued(l), l.folds) && (l.folds != [] ==> Folds(l.first))
    ensures PrintFirst(l) != "" && PrintFirst(l)[0] != ' ' && PrintFirst(l)[0] != '\t'
    ensures |PrintLine(l)| == |PrintFirst(l)| + |PrintFolds(l.folds)|
  {
    TokenIsNoBlank(l.name[0]);
    assert PrintFirst(l)[0] == l.name[0];
  }

  function PrintLines(ls: seq<Line>): string
    decreases |ls|
  {
    if ls == [] then "" else PrintLine(ls[0]) + PrintLines(ls[1..])
  }

  function LinesAtoms(ls: seq<Line>): seq<Atom>
    decreases |ls|
  {
    if ls == [] then [] else LineAtoms(ls[0]) + LinesAtoms(ls[1..])
  }

  predicate LinesFit(ls: seq<Line>) {
    forall l <- ls :: LineFits(l)
  }

  function LinesFacts(f: Facts, ls: seq<Line>): Facts
    requires LinesFit(ls)
    decreases |ls|
  {
    if ls == [] then f
    else
      assert ls[0] in ls;
      LinesFacts(LineFacts(f, ls[0]), ls[1..])
  }

  lemma {:induction false} RunLines(p: Parser, ls: seq<Line>)
    requires LineStart(p.state) && LinesFit(ls) && p.nread + |PrintLines(ls)| <= HTTP_MAX_HEADER_SIZE
    ensures var r := Run(p, 0, PrintLines(ls));
            && r == Result(r.p, |PrintLines(ls)|, LinesAtoms(ls), 0, Advance)
            && BehindLines(p, r.p, |PrintLines(ls)|, LinesFacts(Facts(p.flags, p.contentLength), ls))
    decreases |ls|
  {
    hide Run, LineFits, LineFacts, PrintLine, LineAtoms;
    if ls == [] {
      RunNothing(p, 0);
    } else {
      var l := ls[0];
      assert l in ls;
      RunLine(p, l);
      var q := Run(p, 0, PrintLine(l)).p;
      RunLines(q, ls[1..]);
      RunJoin(p, PrintLine(l), q, LineAtoms(l), PrintLines(ls[1..]), Run(q, 0, PrintLines(ls[1..])));
    }
  }

  // ---------------------------------------------------------------- what lines never change

  /** A trailer begins behind the last chunk, not by anything a header line says. */
  lemma {:induction false} LinesKeepTrailing(f: Facts, ls: seq<Line>)
    requires LinesFit(ls)
    ensures LinesFacts(f, ls).flags.trailing == f.flags.trailing
    decreases |ls|
  {
    hide LineFits, LineFacts;
    if ls != [] {
      assert ls[0] in ls;
      LineKeepsTrailing(f, ls[0]);
      LinesKeepTrailing(LineFacts(f, ls[0]), ls[1..]);
    }
  }

  lemma LineKeepsTrailing(f: Facts, l: Line)
    requires LineFits(l)
    ensures LineFacts(f, l).flags.trailing == f.flags.trailing
  {
    hide FoldsFit, FoldsFacts, IsName, IsKeyword;
    FoldsKeepTrailing(FirstFacts(f, l), Continued(l), l.folds);
  }

  lemma {:induction false} FoldsKeepTrailing(f: Facts, h: HeaderState, folds: seq<Part>)
    requires FoldsFit(h, folds)
    ensures FoldsFacts(f, h, folds).flags.trailing == f.flags.trailing
    decreases |folds|
  {
    hide PartFits, Onward, IsKeyword;
    if folds != [] { FoldsKeepTrailing(PartFacts(f, h, folds[0]), Onward(h, folds[0]), folds[1..]); }
  }
}
