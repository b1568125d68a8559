/** The order of the callbacks on a connection, told by counting them. */
module EventLaws {
  import opened Options
  import opened Parser
  import opened Cuts
  import opened Grammar

  /** Whether a message has begun, and whether its header has ended. */
  function Open(ph: Phase): nat {
    if ph.Outside? then 0 else 1
  }

  function Past(ph: Phase): nat {
    if ph.AfterHeaders? || ph.AfterBody? || ph.AfterTrailerName? || ph.AfterTrailerValue? then 1 else 0
  }

  lemma {:induction false} WalkCounts(ph: Phase, t: seq<Atom>)
    requires Walk(ph, t).Some?
    ensures var m := multiset(t); var end := Walk(ph, t).value;
            && m[Begin] + Open(ph) == m[Complete] + Open(end)
            && m[HeadersComplete] + Past(ph) == m[Complete] + Past(end)
    decreases |t|
  {
    hide After, Open, Past;
    if t != [] {
      AfterCounts(ph, t[0]);
      WalkCounts(After(ph, t[0]).value, t[1..]);
      assert t == [t[0]] + t[1..];
      assert multiset(t) == multiset{t[0]} + multiset(t[1..]);
    }
  }

  lemma AfterCounts(ph: Phase, a: Atom)
    requires After(ph, a).Some?
    ensures var m := multiset{a}; var next := After(ph, a).value;
            && m[Begin] + Open(ph) == m[Complete] + Open(next)
            && m[HeadersComplete] + Past(ph) == m[Complete] + Past(next)
  {
  }

  /** Where a trace stands tells what its last event was. */
  lemma WalkEnds(t: seq<Atom>)
    requires t != [] && Walk(Outside, t).Some?
    ensures var ph := Walk(Outside, t).value; var a := t[|t| - 1];
            && (ph.Begun? <==> a == Begin) && (ph.AfterUrl? <==> a.Byte? && a.field.Url?)
            && (ph.AfterName? || ph.AfterTrailerName? <==> a.Byte? && a.field.Name?)
            && (ph.AfterValue? || ph.AfterTrailerValue? <==> a.Byte? && a.field.Value?)
            && (ph.AfterHeaders? <==> a == HeadersComplete) && (ph.AfterBody? <==> a.Byte? && a.field.Body?)
  {
    var n := |t| - 1;
    assert t == t[..n] + [t[n]];
    WalkConcat(Outside, t[..n], [t[n]]);
  }

  /** What holds when event a comes behind the events t of a connection: between a begin and its complete
      there is one headers_complete, a target before it, body bytes behind it; a target comes at once behind
      the begin, a value behind its field name, body bytes behind the header. */
  ghost predicate InPlace(t: seq<Atom>, a: Atom) {
    var m := multiset(t);
    var begun := m[Begin] == m[Complete] + 1;
    var past := m[HeadersComplete] == m[Complete] + 1;
    && m[Complete] <= m[HeadersComplete] <= m[Begin] <= m[Complete] + 1
    && match a
       case Begin => !begun
       case HeadersComplete => begun && !past && LastIs(t, {Url, Name, Value})
       case Complete => past
       case Byte(f, _) =>
         match f
         case Url => begun && !past && (t[|t| - 1] == Begin || LastIs(t, {Url}))
         case Name => begun && (past || LastIs(t, {Url, Name, Value}))
         case Value => begun && LastIs(t, {Name, Value})
         case Body => past && (t[|t| - 1] == HeadersComplete || LastIs(t, {Body}))
  }

  predicate LastIs(t: seq<Atom>, fields: set<Field>) {
    t != [] && t[|t| - 1].Byte? && t[|t| - 1].field in fields
  }

  /** Every callback on a connection comes in its place, however the stream is cut into calls. */
  lemma EveryEventInPlace(pieces: seq<string>, i: nat)
    requires i < |Calls(INITIAL, pieces).out|
    ensures var t := Calls(INITIAL, pieces).out; InPlace(t[..i], t[i])
  {
    hide Calls;
    var t := Calls(INITIAL, pieces).out;
    ConnectionInOrder(pieces);
    assert t[..i] <= t && t[..i + 1] <= t && t[..i + 1] == t[..i] + [t[i]];
    WalkPrefix(Outside, t[..i], t);
    WalkPrefix(Outside, t[..i + 1], t);
    WalkConcat(Outside, t[..i], [t[i]]);
    NextInPlace(t[..i], t[i]);
  }

  lemma NextInPlace(t: seq<Atom>, a: Atom)
    requires Walk(Outside, t).Some? && After(Walk(Outside, t).value, a).Some?
    ensures InPlace(t, a)
  {
    hide Walk;
    WalkCounts(Outside, t);
    if t != [] { WalkEnds(t); } else { WalkNothing(); }
  }

  lemma WalkNothing()
    ensures Walk(Outside, []) == Some(Outside)
  {
  }
}
