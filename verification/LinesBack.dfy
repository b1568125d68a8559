/** Whatever the parser takes for header lines are header lines, up to an empty one. */
module LinesBack {
  import opened Chars
  import opened Parser
  import opened Names
  import opened Values
  import opened Lengths
  import opened Lines
  import opened Framing
  import opened Completions

  /** What a byte of a header line can be where the parser does not refuse it. */
  lemma LineBack(p: Parser, ch: char)
    requires InHeaderLines(p.state) && !Step(p, ch).next.Error?
    ensures p.nread < HTTP_MAX_HEADER_SIZE
    ensures p.state.HeaderFieldStart? ==> ch == CR || ch == LF || Token(ch) != '\0'
    ensures p.state.HeaderField? ==> Token(ch) != '\0' || ch == ':' || ch == CR || ch == LF
    ensures p.state.HeaderAlmostDone? || p.state.HeadersAlmostDone? ==> ch == LF
    ensures p.headerState.ContentLength? && p.state.HeaderValueStart? ==>
            Of(Pad, ch) || ch == CR || ch == LF || IsNum(ch)
    ensures p.headerState.ContentLength? && p.state.HeaderValue? ==> Of(Number, ch) || ch == CR || ch == LF
  {
    hide FieldMatch, ValueMatch, PushDigit, FieldStart, LineFlags;
    assert Micro(Count(p), ch) == HeaderLines(Count(p), ch);
  }

  lemma CrStep(p: Parser)
    requires p.state.HeaderField? || p.state.HeaderValueStart? || p.state.HeaderValue?
    requires p.nread < HTTP_MAX_HEADER_SIZE
    ensures var m := Step(p, CR);
            m.out == [] && m.next.Advance? && m.p.state.HeaderAlmostDone? && m.p.nread == p.nread + 1
  {
    assert Micro(Count(p), CR) == HeaderLines(Count(p), CR);
  }

  /** The end of a line. */
  lemma ReadLineEnd(p: Parser, s: string) returns (eol: string, b: string)
    requires p.state.HeaderField? || p.state.HeaderValueStart? || p.state.HeaderValue?
    requires Completes(p, s) && (s[0] == CR || s[0] == LF)
    ensures s == eol + b && IsEol(eol) && p.nread + |eol| <= HTTP_MAX_HEADER_SIZE
  {
    hide Step, Completes;
    FirstByte(p, s);
    LineBack(p, s[0]);
    if s[0] == LF {
      eol, b := [LF], s[1..];
    } else {
      CrStep(p);
      CompletesStep(p, s);
      FirstByte(Step(p, CR).p, s[1..]);
      LineBack(Step(p, CR).p, s[1]);
      eol, b := [CR, LF], s[2..];
    }
  }

  // ---------------------------------------------------------------- the lines of a value

  lemma FirstTextStep(p: Parser, ch: char)
    requires p.state.HeaderValueStart? && !p.headerState.ContentLength? && p.nread < HTTP_MAX_HEADER_SIZE
    requires !Of(Pad, ch) && ch != CR && ch != LF
    ensures var m := Step(p, ch);
            m.next.Advance? && At(Text, m.p) && m.p.nread == p.nread + 1 && Complete !in m.out
  {
    ValueStartStep(p, ch);
  }

  /** A value that is not a length. */
  lemma ReadText(p: Parser, s: string) returns (v: string, eol: string, b: string)
    requires p.state.HeaderValueStart? && !p.headerState.ContentLength? && Completes(p, s)
    requires !Of(Pad, s[0]) && s[0] != CR && s[0] != LF
    ensures s == v + (eol + b) && IsValue(v) && IsEol(eol)
    ensures p.nread + |v| + |eol| <= HTTP_MAX_HEADER_SIZE
  {
    hide Step, Run, Completes, Track;
    FirstByte(p, s);
    LineBack(p, s[0]);
    FirstTextStep(p, s[0]);
    CompletesStep(p, s);
    var more, rest := Divide(Text, Step(p, s[0]).p, s[1..]);
    v := [s[0]] + more;
    assert s == v + rest;
    forall i | 0 <= i < |v| ensures v[i] != CR && v[i] != LF {
      if i > 0 { assert v[i] == more[i - 1] && Of(Text, more[i - 1]); }
    }
    RunValue(p, v);
    CompletesPrefix(p, v, rest);
    eol, b := ReadLineEnd(Run(p, 0, v).p, rest);
  }

  /** A length: the parser takes all of its digits. */
  lemma ReadLength(p: Parser, s: string) returns (v: string, eol: string, b: string)
    requires p.state.HeaderValueStart? && p.headerState.ContentLength? && Completes(p, s)
    requires !Of(Pad, s[0]) && s[0] != CR && s[0] != LF
    ensures s == v + (eol + b) && IsDecimal(v) && Guarded(10, Digits(v)).Some? && IsEol(eol)
    ensures p.nread + |v| + |eol| <= HTTP_MAX_HEADER_SIZE
  {
    hide Step, Run, Completes, Guarded, Digits;
    FirstByte(p, s);
    LineBack(p, s[0]);
    FirstDigitStep(p, s[0]);
    CompletesStep(p, s);
    var more, rest := Divide(Number, Step(p, s[0]).p, s[1..]);
    v := [s[0]] + more;
    assert s == v + rest;
    forall i | 0 <= i < |v| ensures IsNum(v[i]) || v[i] == ' ' {
      if i > 0 { assert v[i] == more[i - 1] && Of(Number, more[i - 1]); }
    }
    RunDecimal(p, v);
    CompletesPrefix(p, v, rest);
    FirstByte(Run(p, 0, v).p, rest);
    LineBack(Run(p, 0, v).p, rest[0]);
    eol, b := ReadLineEnd(Run(p, 0, v).p, rest);
  }

  /** A line of a value of a field that means h. */
  lemma ReadPart(p: Parser, h: HeaderState, s: string) returns (x: Part, b: string)
    requires p.state.HeaderValueStart? && ActsAs(p.headerState, h) && Completes(p, s)
    requires p.nread <= HTTP_MAX_HEADER_SIZE
    ensures s == PrintPart(x) + b && PartFits(h, x) && p.nread + |PrintPart(x)| <= HTTP_MAX_HEADER_SIZE
    ensures |b| < |s| && IsEol(x.eol) && (Of(Pad, s[0]) ==> x.pad != "")
  {
    hide Run, Completes, PartFits, ActsAs;
    FirstByte(p, s);
    var pad, r := Divide(Pad, p, s);
    assert forall i | 0 <= i < |pad| :: Of(Pad, pad[i]);
    RunPad(p, pad);
    x, b := ReadValue(Run(p, 0, pad).p, h, pad, r);
    assert pad + (x.value + x.eol + b) == (pad + x.value + x.eol) + b;
    assert pad == "" ==> s == r;
  }

  lemma ReadValue(p: Parser, h: HeaderState, pad: string, s: string) returns (x: Part, b: string)
    requires p.state.HeaderValueStart? && ActsAs(p.headerState, h) && Completes(p, s) && !Of(Pad, s[0]) && IsPad(pad)
    ensures s == x.value + x.eol + b && x.pad == pad && PartFits(h, x) && IsEol(x.eol)
    ensures p.nread + |x.value| + |x.eol| <= HTTP_MAX_HEADER_SIZE
  {
    hide Completes, IsDecimal, IsValue, Guarded, Digits;
    FirstByte(p, s);
    var v, eol := "", "";
    if s[0] == CR || s[0] == LF {
      eol, b := ReadLineEnd(p, s);
    } else if h.ContentLength? {
      v, eol, b := ReadLength(p, s);
    } else {
      v, eol, b := ReadText(p, s);
    }
    x := Part(pad, v, eol);
    assert v + (eol + b) == v + eol + b;
  }

  /** The lines that continue a field. */
  lemma {:induction false} ReadFolds(p: Parser, h: HeaderState, s: string) returns (folds: seq<Part>, b: string)
    requires p.state.HeaderValueLws? && ActsAs(p.headerState, h) && Completes(p, s) && p.nread <= HTTP_MAX_HEADER_SIZE
    ensures s == PrintFolds(folds) + b && FoldsFit(h, folds) && p.nread + |PrintFolds(folds)| <= HTTP_MAX_HEADER_SIZE
    ensures b != "" && !Of(Pad, b[0])
    decreases |s|
  {
    hide Run, Step, ActsAs, PartFits, PrintPart, PartFacts, Completes;
    FirstByte(p, s);
    folds, b := [], s;
    if Of(Pad, s[0]) {
      LineBack(p, s[0]);
      BlankStep(p, s[0]);
      SameStep(p, p.(state := HeaderValueStart), s);
      var x, q, r := ReadFold(p.(state := HeaderValueStart), h, s);
      if Folds(x) {
        folds, b := ReadFolds(q, Onward(h, x), r);
      } else {
        folds, b := [], r;
        FirstByte(q, r);
        LineBack(q, r[0]);
        NoTokenIsPad(r[0]);
      }
      folds := [x] + folds;
      assert folds[1..] == folds[1..] && folds[0] == x;
      assert PrintFolds(folds) == PrintPart(x) + PrintFolds(folds[1..]);
    }
  }

  lemma SameStep(p: Parser, q: Parser, s: string)
    requires Completes(p, s) && Step(p, s[0]) == Step(q, s[0])
    ensures Completes(q, s)
  {
    hide Step;
  }

  lemma NoTokenIsPad(ch: char)
    ensures Token(ch) != '\0' || ch == CR || ch == LF ==> !Of(Pad, ch)
  {
    if Token(ch) != '\0' { TokenIsNoBlank(ch); }
  }

  /** One line that continues a field, and the parser behind it. */
  lemma ReadFold(p: Parser, h: HeaderState, s: string) returns (x: Part, q: Parser, r: string)
    requires p.state.HeaderValueStart? && ActsAs(p.headerState, h) && Completes(p, s) && Of(Pad, s[0])
    requires p.nread <= HTTP_MAX_HEADER_SIZE
    ensures s == PrintPart(x) + r && PartFits(h, x) && x.pad != "" && Completes(q, r) && |r| < |s|
    ensures q.nread == p.nread + |PrintPart(x)| <= HTTP_MAX_HEADER_SIZE
    ensures if Folds(x) then q.state.HeaderValueLws? && ActsAs(q.headerState, Onward(h, x))
            else q.state.HeaderFieldStart?
  {
    hide Run, ActsAs, PartFits, PartFacts, Completes;
    x, r := ReadPart(p, h, s);
    RunPart(p, h, x);
    NoComplete(Value, x.value);
    CompletesPast(p, PrintPart(x), r);
    q := Run(p, 0, PrintPart(x)).p;
  }

  // ---------------------------------------------------------------- header fields

  /** The name of a field, and the parser behind it. */
  lemma ReadName(p: Parser, s: string) returns (name: string, q: Parser, r: string)
    requires p.state.HeaderFieldStart? && Completes(p, s) && s[0] != CR && s[0] != LF
    ensures s == name + r && IsName(name) && r != "" && Completes(q, r) && (r[0] == ':' || r[0] == CR || r[0] == LF)
    ensures q.state.HeaderField? && q.nread == p.nread + |name| && q.headerState == Matcher(LowerName(name))
    ensures q.nread <= HTTP_MAX_HEADER_SIZE
  {
    hide Step, Run, Completes, Matcher, LowerName;
    FirstByte(p, s);
    LineBack(p, s[0]);
    FieldStartStep(p, s[0]);
    CompletesStep(p, s);
    var more;
    more, r := Divide(FieldName, Step(p, s[0]).p, s[1..]);
    name := [s[0]] + more;
    assert s == name + r;
    forall i | 0 <= i < |name| ensures Token(name[i]) != '\0' {
      if i > 0 { assert name[i] == more[i - 1] && Of(FieldName, more[i - 1]); }
    }
    RunName(p, name);
    CompletesPrefix(p, name, r);
    q := Run(p, 0, name).p;
    FirstByte(q, r);
    LineBack(q, r[0]);
  }

  /** The first line of a field, and the parser behind it. */
  lemma ReadFirst(p: Parser, s: string) returns (l: Line, q: Parser, r: string)
    requires p.state.HeaderFieldStart? && Completes(p, s) && s[0] != CR && s[0] != LF
    ensures s == PrintFirst(l) + r && IsName(l.name) && FirstFits(l) && l.folds == [] && Completes(q, r)
    ensures q.nread == p.nread + |PrintFirst(l)| <= HTTP_MAX_HEADER_SIZE
    ensures if Folds(l.first) then q.state.HeaderValueLws? && ActsAs(q.headerState, Continued(l))
            else q.state.HeaderFieldStart?
  {
    hide Step, Run, Completes, Matcher, LowerName, ActsAs, PartFits, IsName, Meaning, Folds, PartFacts;
    var name, a, s1 := ReadName(p, s);
    if s1[0] == ':' {
      FirstByte(a, s1);
      LineBack(a, ':');
      ColonStep(a);
      CompletesStep(a, s1);
      MatcherActsAsMeaning(LowerName(name));
      var x;
      x, r := ReadPart(Step(a, ':').p, Meaning(LowerName(name)), s1[1..]);
      l := Line(name, true, x, []);
      assert s == (name + ":" + PrintPart(x)) + r;
    } else {
      var eol;
      eol, r := ReadLineEnd(a, s1);
      l := Line(name, false, Part("", "", eol), []);
      assert s == (name + "" + PrintPart(l.first)) + r;
    }
    RunFirst(p, l);
    NoComplete(Name, l.name);
    NoComplete(Value, l.first.value);
    CompletesPast(p, PrintFirst(l), r);
    q := Run(p, 0, PrintFirst(l)).p;
  }

  /** A header field, between two of them. */
  lemma ReadLine(p: Parser, s: string) returns (l: Line, b: string)
    requires LineStart(p.state) && Completes(p, s) && s[0] != CR && s[0] != LF && !Of(Pad, s[0])
    ensures s == PrintLine(l) + b && LineFits(l) && p.nread + |PrintLine(l)| <= HTTP_MAX_HEADER_SIZE
    ensures b != "" && !Of(Pad, b[0]) && |b| < |s|
  {
    hide Step, Completes, FirstFits, FoldsFit, ActsAs, Continued, Folds, IsName, PrintFirst;
    FirstByte(p, s);
    LineBack(p, s[0]);
    if p.state.HeaderValueLws? {
      LwsStep(p, s[0]);
      SameStep(p, p.(state := HeaderFieldStart), s);
    }
    var l0, q, r := ReadFirst(p.(state := HeaderFieldStart), s);
    var folds := [];
    if Folds(l0.first) {
      folds, b := ReadFolds(q, Continued(l0), r);
    } else {
      b := r;
      FirstByte(q, r);
      LineBack(q, r[0]);
      NoTokenIsPad(r[0]);
      NoFolds(Continued(l0));
      assert PrintFolds(folds) + b == r;
    }
    l := l0.(folds := folds);
    SameFirst(l0, folds);
    NameFirst(l);
    assert PrintFirst(l) + (PrintFolds(folds) + b) == (PrintFirst(l) + PrintFolds(folds)) + b;
  }

  lemma NoFolds(h: HeaderState)
    ensures FoldsFit(h, []) && PrintFolds([]) == ""
  {
  }

  lemma SameFirst(l: Line, folds: seq<Part>)
    ensures var k := l.(folds := folds);
            FirstFits(k) == FirstFits(l) && PrintFirst(k) == PrintFirst(l) && Continued(k) == Continued(l)
  {
  }

  /** Header fields and the empty line behind them. */
  lemma {:induction false} ReadLines(p: Parser, s: string) returns (ls: seq<Line>, eol: string, b: string)
    requires LineStart(p.state) && Completes(p, s) && !Of(Pad, s[0])
    ensures s == PrintLines(ls) + (eol + b) && LinesFit(ls) && IsEol(eol)
    ensures p.nread + |PrintLines(ls)| + |eol| <= HTTP_MAX_HEADER_SIZE
    decreases |s|
  {
    hide Step, Run, Completes, LineFits, LineFacts, PrintLine, LineAtoms, At, Of;
    FirstByte(p, s);
    if s[0] == CR || s[0] == LF {
      ls := [];
      eol, b := ReadEmptyLine(p, s);
    } else {
      var l, r := ReadLine(p, s);
      RunLine(p, l);
      LineHasNoComplete(l);
      CompletesPast(p, PrintLine(l), r);
      ls, eol, b := ReadLines(Run(p, 0, PrintLine(l)).p, r);
      assert PrintLine(l) + (PrintLines(ls) + (eol + b)) == (PrintLine(l) + PrintLines(ls)) + (eol + b);
      ls := [l] + ls;
    }
  }

  lemma LineHasNoComplete(l: Line)
    ensures Complete !in LineAtoms(l)
  {
    NoComplete(Name, l.name);
    NoComplete(Value, l.first.value + FoldsValue(l.folds));
  }

  lemma ReadEmptyLine(p: Parser, s: string) returns (eol: string, b: string)
    requires LineStart(p.state) && Completes(p, s) && (s[0] == CR || s[0] == LF)
    ensures s == eol + b && IsEol(eol) && p.nread + |eol| <= HTTP_MAX_HEADER_SIZE
  {
    hide Step, Completes;
    FirstByte(p, s);
    LineBack(p, s[0]);
    if s[0] == LF {
      eol, b := [LF], s[1..];
    } else {
      if p.state.HeaderValueLws? { LwsStep(p, CR); }
      FieldStartEnds(p.(state := HeaderFieldStart));
      CompletesStep(p, s);
      FirstByte(Step(p, CR).p, s[1..]);
      LineBack(Step(p, CR).p, s[1]);
      eol, b := [CR, LF], s[2..];
    }
  }
}
