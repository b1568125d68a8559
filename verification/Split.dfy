/** One call over a buffer, taken apart: within a call, a buffer may be cut anywhere. */
module Split {
  import opened Parser

  /** Two consecutive stretches of one call. */
  function Then(r: Result, s: Result): Result {
    s.(used := r.used + s.used, out := r.out + s.out)
  }

  /** Within one call, a buffer may be cut anywhere. */
  lemma {:induction false} RunConcat(p: Parser, held: nat, a: string, b: string)
    ensures var r := Run(p, held, a);
            Run(p, held, a + b) == if r.end.Advance? then Then(r, Run(r.p, r.held, b)) else r
    decreases |a|
  {
    hide Step;
    if a == [] {
      assert a + b == b;
      assert Then(Run(p, held, a), Run(p, held, b)).out == Run(p, held, b).out;
    } else {
      var m := Step(p, a[0]);
      assert (a + b)[0] == a[0] && (a + b)[1..] == a[1..] + b;
      if m.next.Advance? {
        RunConcat(m.p, Hold(held, m), a[1..], b);
        var r := Run(m.p, Hold(held, m), a[1..]);
        var x := Run(r.p, r.held, b).out;
        assert r.end.Advance? ==> (m.out + r.out) + x == m.out + (r.out + x);
      }
    }
  }

  /** A single byte. */
  lemma RunOne(p: Parser, held: nat, ch: char)
    ensures var m := Step(p, ch);
            Run(p, held, [ch]) ==
            if m.next.Error? then Result(m.p, 0, m.out, held, Error)
            else if m.next.Leave? then Result(m.p, 1, m.out, 0, Leave)
            else Result(m.p, 1, m.out, Hold(held, m), Advance)
  {
    hide Step;
    var m := Step(p, ch);
    assert [ch][1..] == [];
    if m.next.Advance? {
      assert Run(m.p, Hold(held, m), []) == Result(m.p, 0, [], Hold(held, m), Advance);
      assert m.out + [] == m.out;
    }
  }

  /** One more byte. */
  lemma RunSnoc(p: Parser, held: nat, s: string, ch: char)
    requires Run(p, held, s).end.Advance?
    ensures var r := Run(p, held, s); var m := Step(r.p, ch);
            Run(p, held, s + [ch]) ==
            if m.next.Error? then Result(m.p, |s|, r.out + m.out, r.held, Error)
            else if m.next.Leave? then Result(m.p, |s| + 1, r.out + m.out, 0, Leave)
            else Result(m.p, |s| + 1, r.out + m.out, Hold(r.held, m), Advance)
  {
    hide Run, Step;
    RunConcat(p, held, s, [ch]);
    RunOne(Run(p, held, s).p, Run(p, held, s).held, ch);
  }

  /** Two stretches with nothing pending in between. */
  lemma RunJoin(p: Parser, a: string, q: Parser, x: seq<Atom>, b: string, r: Result)
    requires Run(p, 0, a) == Result(q, |a|, x, 0, Advance) && Run(q, 0, b) == r
    ensures Run(p, 0, a + b) == r.(used := |a| + r.used, out := x + r.out)
  {
    hide Run;
    RunConcat(p, 0, a, b);
  }

  /** No bytes at all. */
  lemma RunNothing(p: Parser, held: nat)
    ensures Run(p, held, "") == Result(p, 0, [], held, Advance)
  {
  }

  /** A byte that only moves to another state. */
  lemma RunMove(p: Parser, s: string, ch: char, q: Parser, q1: Parser)
    requires Run(p, 0, s) == Result(q, |s|, [], 0, Advance) && Step(q, ch) == Move(q1) && MarkOf(q1.state).None?
    ensures Run(p, 0, s + [ch]) == Result(q1, |s| + 1, [], 0, Advance)
  {
    hide Run, Step;
    RunSnoc(p, 0, s, ch);
  }

  /** The pending count that a call starts with only matters while its mark stays set. */
  lemma {:induction false} RunHeld(p: Parser, less: nat, more: nat, data: string)
    requires less <= more
    ensures var r := Run(p, less, data); var s := Run(p, more, data);
            && s == r.(held := s.held) && r.held <= less + |r.out|
            && r.held <= s.held <= r.held + more - less
    decreases |data|
  {
    hide Step;
    if data != [] {
      var m := Step(p, data[0]);
      if m.next.Advance? {
        RunHeld(m.p, Hold(less, m), Hold(more, m), data[1..]);
      }
    }
  }

  /** Nothing is pending where no mark can be set. */
  lemma {:induction false} UnmarkedHoldsNothing(p: Parser, held: nat, data: string)
    ensures var r := Run(p, held, data);
            r.end.Advance? && MarkOf(r.p.state).None? && (data != "" || held == 0) ==> r.held == 0
    decreases |data|
  {
    hide Step, MarkOf;
    if data != "" {
      var m := Step(p, data[0]);
      if m.next.Advance? { UnmarkedHoldsNothing(m.p, Hold(held, m), data[1..]); }
    }
  }
}
