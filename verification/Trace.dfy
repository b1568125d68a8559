/** The callbacks of one call, as the C code makes them: notifications, and slices of the buffer. */
module Trace {
  import opened Parser

  datatype Call = Notify(a: Atom) | Data(field: Field, at: nat, len: nat)

  /** The atoms of a stretch of bytes of one field. */
  function Bytes(f: Field, s: string): (r: seq<Atom>)
    ensures |r| == |s| && forall i :: 0 <= i < |s| ==> r[i] == Byte(f, s[i])
  {
    seq(|s|, i requires 0 <= i < |s| => Byte(f, s[i]))
  }

  /** The slices lie inside the first `hi` bytes, in input order and without overlap; bytes are only
      delivered as slices. */
  predicate InOrder(log: seq<Call>, hi: nat)
    decreases |log|
  {
    if log == [] then true
    else match log[|log| - 1]
      case Notify(a) => !a.Byte? && InOrder(log[..|log| - 1], hi)
      case Data(_, at, len) => at + len <= hi && InOrder(log[..|log| - 1], at)
  }

  lemma InOrderEmpty(hi: nat)
    ensures InOrder([], hi)
  {
  }

  lemma {:induction false} InOrderWidens(log: seq<Call>, lo: nat, hi: nat)
    requires InOrder(log, lo) && lo <= hi
    ensures InOrder(log, hi)
    decreases |log|
  {
    if log != [] && log[|log| - 1].Notify? { InOrderWidens(log[..|log| - 1], lo, hi); }
  }

  /** The merged trace of a call log over a buffer. */
  function Atoms(data: string, log: seq<Call>): seq<Atom>
    requires InOrder(log, |data|)
    decreases |log|
  {
    if log == [] then []
    else
      var front := log[..|log| - 1];
      match log[|log| - 1]
      case Notify(a) => Atoms(data, front) + [a]
      case Data(f, at, len) =>
        InOrderWidens(front, at, |data|);
        Atoms(data, front) + Bytes(f, data[at..at + len])
  }

  lemma AtomsNotify(data: string, log: seq<Call>, a: Atom, hi: nat)
    requires hi <= |data| && InOrder(log, hi) && !a.Byte?
    ensures InOrder(log + [Notify(a)], hi) && InOrder(log, |data|) && InOrder(log + [Notify(a)], |data|)
    ensures Atoms(data, log + [Notify(a)]) == Atoms(data, log) + [a]
  {
    InOrderWidens(log, hi, |data|);
    assert (log + [Notify(a)])[..|log|] == log;
  }

  lemma AtomsData(data: string, log: seq<Call>, f: Field, at: nat, hi: nat)
    requires at <= hi <= |data| && InOrder(log, at)
    ensures var c := Data(f, at, hi - at);
            && InOrder(log + [c], hi) && InOrder(log, |data|) && InOrder(log + [c], |data|)
            && Atoms(data, log + [c]) == Atoms(data, log) + Bytes(f, data[at..hi])
  {
    var c := Data(f, at, hi - at);
    InOrderWidens(log, at, |data|);
    assert (log + [c])[..|log|] == log;
  }
}
