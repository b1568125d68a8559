/** The blocking connection pools as monitors: what each critical section does, and what holds in every
    interleaving of gets, releases, timeouts, spurious wakeups and shutdown. */
module Pools {
  import opened Options

  /** `CachePool` and `DBPool` differ in the connections they start with, in the checks after a wait and
      in their destructors. */
  datatype Kind = Cache | Db

  /** A connection: its address, and the name of the pool that made it. */
  datatype Conn = Conn(id: nat, pool: string)

  /** The fields that the mutex guards. */
  datatype Monitor = Monitor(free: seq<Conn>, cnt: nat, max: int, abort: bool)

  /** How a critical section of a get ends: with a connection, with a null pointer, or asleep. */
  datatype Outcome = Got(conn: Conn) | Null | Wait

  /** MIN_CACHE_CONN_CNT and MIN_DB_CONN_CNT. */
  function MinCount(k: Kind): nat {
    match k
    case Cache => 2
    case Db => 1
  }

  function Take(m: Monitor): (Monitor, Outcome)
    requires m.free != []
  {
    (m.(free := m.free[1..]), Got(m.free[0]))
  }

  /** A get up to its return or its wait; made is the new connection, if making one succeeds. */
  function Enter(m: Monitor, made: Option<Conn>): (Monitor, Outcome) {
    if m.abort then (m, Null)
    else if m.free != [] then Take(m)
    else if m.cnt >= m.max then (m, Wait)
    else if made.None? then (m, Null)
    else Take(m.(free := [made.value], cnt := m.cnt + 1))
  }

  /** A get from the end of its sleep on: expired tells whether its timeout has run out. */
  function Resume(k: Kind, m: Monitor, expired: bool): (Monitor, Outcome) {
    if m.free == [] && !m.abort && !expired then (m, Wait)
    else if m.free == [] then (m, Null)
    else if k.Cache? && m.abort then (m, Null)
    else Take(m)
  }

  /** A release, and whether it notifies. */
  function Return(m: Monitor, c: Conn): (Monitor, bool) {
    if c in m.free then (m, false) else (m.(free := m.free + [c]), true)
  }

  /** The critical section of a destructor that sets the abort flag, and whether it notifies all waiting
      threads; DBPool's clears the list as well. */
  function Shut(k: Kind, m: Monitor): (Monitor, bool) {
    (if k.Db? then m.(free := [], abort := true) else m.(abort := true), true)
  }

  /** The connections up to the first that could not be made. */
  function Made(outcomes: seq<Option<Conn>>): (cs: seq<Conn>)
    ensures |cs| <= |outcomes| && forall i | 0 <= i < |cs| :: outcomes[i] == Some(cs[i])
    ensures |cs| < |outcomes| ==> outcomes[|cs|].None?
    decreases |outcomes|
  {
    if outcomes == [] || outcomes[0].None? then [] else [outcomes[0].value] + Made(outcomes[1..])
  }

  predicate AllMade(outcomes: seq<Option<Conn>>) {
    forall o <- outcomes :: o.Some?
  }

  lemma {:induction false} MadeSnoc(outcomes: seq<Option<Conn>>, o: Option<Conn>)
    requires AllMade(outcomes)
    ensures Made(outcomes + [o]) == Made(outcomes) + (if o.Some? then [o.value] else [])
    ensures |Made(outcomes)| == |outcomes|
    decreases |outcomes|
  {
    if outcomes == [] {
      assert (outcomes + [o])[1..] == [];
    } else {
      assert outcomes[0] in outcomes;
      MadeSnoc(outcomes[1..], o);
      assert (outcomes + [o])[1..] == outcomes[1..] + [o];
    }
  }

  lemma {:induction false} MadeStops(outcomes: seq<Option<Conn>>, i: nat)
    requires i < |outcomes| && AllMade(outcomes[..i]) && outcomes[i].None?
    ensures Made(outcomes) == Made(outcomes[..i])
    decreases i
  {
    if i > 0 {
      assert outcomes[0] in outcomes[..i];
      assert outcomes[..i][1..] == outcomes[1..][..i - 1];
      forall o | o in outcomes[1..][..i - 1] ensures o.Some? {
        assert o in outcomes[..i];
      }
      MadeStops(outcomes[1..], i - 1);
    }
  }

  // ---------------------------------------------------------------- all threads together

  type Thread = nat

  /** A woken thread: what it was waiting with. */
  datatype Wake = Wake(timed: bool, expired: bool)

  /** The pool, the connections in the hands of callers, the threads asleep on the condition variable
      (with or without a timeout), and those that were woken but have not got the mutex yet. */
  datatype System = System(kind: Kind, name: string, m: Monitor, cleared: bool, lent: set<Conn>,
                           sleeping: map<Thread, bool>, woken: map<Thread, Wake>)

  datatype Action =
    | Get(t: Thread, timed: bool, made: Option<Conn>)
    | Expire(t: Thread)
    | Spurious(t: Thread)
    | Continue(t: Thread)
    | Release(conn: Conn, notified: Option<Thread>)
    | Abort
    | Clear

  /** When an action can happen. A connection that is made is a new one; only a lent connection is
      released; notify_one wakes a sleeper if there is one. The destructor aborts and clears the pool,
      DBPool's in one critical section. */
  predicate Enabled(s: System, a: Action) {
    match a
    case Get(t, _, made) =>
      && t !in s.sleeping && t !in s.woken
      && (made.Some? ==> made.value !in s.m.free && made.value !in s.lent && made.value.pool == s.name)
    case Expire(t) => t in s.sleeping && s.sleeping[t]
    case Spurious(t) => t in s.sleeping
    case Continue(t) => t in s.woken
    case Release(c, notified) =>
      && c in s.lent
      && (if s.sleeping == map[] then notified.None? else notified.Some? && notified.value in s.sleeping)
    case Abort => !s.m.abort
    case Clear => s.kind.Cache? && s.m.abort && !s.cleared
  }

  /** A sleeper wakes up. */
  function Rouse(s: System, t: Thread, expired: bool): System
    requires t in s.sleeping
  {
    s.(sleeping := s.sleeping - {t}, woken := s.woken[t := Wake(s.sleeping[t], expired)])
  }

  function RouseAll(s: System): System {
    var up := map t | t in s.sleeping :: Wake(s.sleeping[t], false);
    s.(sleeping := map[], woken := s.woken + up)
  }

  /** The thread t has left a critical section of a get with an outcome. */
  function Leave(s: System, t: Thread, timed: bool, m: Monitor, o: Outcome): System {
    match o
    case Got(c) => s.(m := m, lent := s.lent + {c})
    case Null => s.(m := m)
    case Wait => s.(m := m, sleeping := s.sleeping[t := timed])
  }

  function Apply(s: System, a: Action): System
    requires Enabled(s, a)
  {
    match a
    case Get(t, timed, made) =>
      var (m, o) := Enter(s.m, made);
      Leave(s, t, timed, m, o)
    case Expire(t) => Rouse(s, t, true)
    case Spurious(t) => Rouse(s, t, false)
    case Continue(t) =>
      var w := s.woken[t];
      var (m, o) := Resume(s.kind, s.m, w.expired);
      Leave(s.(woken := s.woken - {t}), t, w.timed, m, o)
    case Release(c, notified) =>
      var (m, notify) := Return(s.m, c);
      var r := s.(m := m, lent := s.lent - {c});
      if notify && notified.Some? then Rouse(r, notified.value, false) else r
    case Abort =>
      var (m, notifyAll) := Shut(s.kind, s.m);
      var r := s.(m := m, cleared := s.cleared || s.kind.Db?);
      if notifyAll then RouseAll(r) else r
    case Clear => s.(m := s.m.(free := [], cnt := 0), cleared := true)
  }

  /** What a get hands out in a step. */
  function HandedOut(s: System, a: Action): Option<Conn>
    requires Enabled(s, a)
  {
    var o := match a
      case Get(t, timed, made) => Enter(s.m, made).1
      case Continue(t) => Resume(s.kind, s.m, s.woken[t].expired).1
      case _ => Null;
    if o.Got? then Some(o.conn) else None
  }

  // ---------------------------------------------------------------- the invariant

  predicate Distinct(cs: seq<Conn>) {
    forall i, j | 0 <= i < j < |cs| :: cs[i] != cs[j]
  }

  function Cap(s: System): int {
    if s.m.max > MinCount(s.kind) then s.m.max else MinCount(s.kind)
  }

  /** Every connection is in one place: idle, or in the hands of one caller, and counted. */
  predicate Conserved(s: System) {
    && Distinct(s.m.free)
    && (forall c <- s.m.free :: c !in s.lent)
    && (!s.cleared ==> |s.m.free| + |s.lent| == s.m.cnt)
    && s.m.cnt <= Cap(s)
  }

  /** Every connection belongs to this pool. */
  predicate Homed(s: System) {
    (forall c <- s.m.free :: c.pool == s.name) && (forall c <- s.lent :: c.pool == s.name)
  }

  /** No lost wakeup: a thread sleeps only while every idle connection has a woken thread coming for it. */
  predicate NoneOversleeps(s: System) {
    && (s.sleeping != map[] ==> |s.m.free| <= |s.woken| && !s.m.abort)
    && (forall t <- s.sleeping :: t !in s.woken)
  }

  predicate Good(s: System) {
    Conserved(s) && Homed(s) && NoneOversleeps(s) && (s.cleared ==> s.m.abort)
  }

  lemma Fewer(woken: map<Thread, Wake>, t: Thread)
    requires t in woken
    ensures |woken - {t}| == |woken| - 1
  {
    assert (woken - {t}).Keys == woken.Keys - {t};
    assert |woken| == |woken.Keys| && |woken - {t}| == |(woken - {t}).Keys|;
  }

  lemma RouseKeepsGood(s: System, t: Thread, expired: bool)
    requires Conserved(s) && Homed(s) && (s.cleared ==> s.m.abort) && !s.m.abort && t in s.sleeping
    requires (forall u <- s.sleeping :: u !in s.woken) && |s.m.free| <= |s.woken| + 1
    ensures Good(Rouse(s, t, expired))
  {
  }

  /** A get that takes the first connection, or gives up. */
  lemma TakeKeepsGood(s: System, t: Thread, timed: bool)
    requires Conserved(s) && Homed(s) && (s.cleared ==> s.m.abort) && s.m.free != []
    requires (forall u <- s.sleeping :: u !in s.woken)
    requires s.sleeping != map[] ==> |s.m.free| <= |s.woken| + 1 && !s.m.abort
    ensures var (m, o) := Take(s.m); Good(Leave(s, t, timed, m, o)) && o.conn !in s.lent
  {
    var (m, o) := Take(s.m);
    var r := Leave(s, t, timed, m, o);
    assert o.conn == s.m.free[0] && o.conn in s.m.free;
    forall c <- r.m.free ensures c !in r.lent && c.pool == s.name {
      assert c in s.m.free;
    }
  }

  lemma GetKeepsGood(s: System, t: Thread, timed: bool, made: Option<Conn>)
    requires Good(s) && Enabled(s, Get(t, timed, made))
    ensures Good(Apply(s, Get(t, timed, made)))
  {
    if !s.m.abort && s.m.free == [] && s.m.cnt < s.m.max && made.Some? {
      TakeKeepsGood(s.(m := s.m.(free := [made.value], cnt := s.m.cnt + 1)), t, timed);
    } else if !s.m.abort && s.m.free != [] {
      TakeKeepsGood(s, t, timed);
    }
  }

  lemma ContinueKeepsGood(s: System, t: Thread)
    requires Good(s) && Enabled(s, Continue(t))
    ensures Good(Apply(s, Continue(t)))
  {
    Fewer(s.woken, t);
    var w := s.woken[t];
    var (m, o) := Resume(s.kind, s.m, w.expired);
    if o.Got? { TakeKeepsGood(s.(woken := s.woken - {t}), t, w.timed); }
  }

  lemma ReleaseKeepsGood(s: System, c: Conn, notified: Option<Thread>)
    requires Good(s) && Enabled(s, Release(c, notified))
    ensures Good(Apply(s, Release(c, notified)))
  {
    var r := s.(m := Return(s.m, c).0, lent := s.lent - {c});
    assert Conserved(r) && Homed(r);
    if notified.Some? { RouseKeepsGood(r, notified.value, false); }
  }

  /** The invariant holds in every step. */
  lemma StepKeepsGood(s: System, a: Action)
    requires Good(s) && Enabled(s, a)
    ensures Good(Apply(s, a))
  {
    match a
    case Get(t, timed, made) => GetKeepsGood(s, t, timed, made);
    case Expire(t) => RouseKeepsGood(s, t, true);
    case Spurious(t) => RouseKeepsGood(s, t, false);
    case Continue(t) => ContinueKeepsGood(s, t);
    case Release(c, notified) => ReleaseKeepsGood(s, c, notified);
    case _ =>
  }

  // ---------------------------------------------------------------- whole runs

  /** The pool after a successful Init. */
  function Started(k: Kind, name: string, max: int, conns: seq<Conn>): System {
    System(k, name, Monitor(conns, |conns|, max, false), false, {}, map[], map[])
  }

  predicate Possible(s: System, run: seq<Action>)
    decreases |run|
  {
    run == [] || (Enabled(s, run[0]) && Possible(Apply(s, run[0]), run[1..]))
  }

  function After(s: System, run: seq<Action>): System
    requires Possible(s, run)
    decreases |run|
  {
    if run == [] then s else After(Apply(s, run[0]), run[1..])
  }

  /** Every interleaving, from a fresh pool on: no connection is lost, shared or mixed up, there are never
      more than the cap, and no thread sleeps beside an idle connection that nobody was woken for. */
  lemma EveryRunIsGood(k: Kind, name: string, max: int, conns: seq<Conn>, run: seq<Action>)
    requires |conns| == MinCount(k) && Distinct(conns) && (forall c <- conns :: c.pool == name)
    requires Possible(Started(k, name, max, conns), run)
    ensures Good(After(Started(k, name, max, conns), run))
  {
    RunKeepsGood(Started(k, name, max, conns), run);
  }

  lemma {:induction false} RunKeepsGood(s: System, run: seq<Action>)
    requires Good(s) && Possible(s, run)
    ensures Good(After(s, run))
    decreases |run|
  {
    hide Good, Apply, Enabled;
    if run != [] {
      StepKeepsGood(s, run[0]);
      RunKeepsGood(Apply(s, run[0]), run[1..]);
    }
  }

  /** Exclusivity: what a get hands out was in nobody's hands, and is then in the caller's. */
  lemma HandsOutIdle(s: System, a: Action)
    requires Good(s) && Enabled(s, a) && HandedOut(s, a).Some?
    ensures var c := HandedOut(s, a).value; c !in s.lent && c in Apply(s, a).lent && c.pool == s.name
  {
    if s.m.free != [] { assert s.m.free[0] in s.m.free; }
  }

  /** While a thread sleeps and a connection is idle, some woken thread will get a connection as soon as
      it runs. */
  lemma SomeoneComes(s: System)
    requires Good(s) && s.sleeping != map[] && s.m.free != []
    ensures exists t :: t in s.woken && Enabled(s, Continue(t)) && HandedOut(s, Continue(t)) == Some(s.m.free[0])
  {
    assert s.woken != map[];
    var t :| t in s.woken;
    assert Enabled(s, Continue(t)) && HandedOut(s, Continue(t)) == Some(s.m.free[0]);
  }

  // ---------------------------------------------------------------- when a get waits, and when it gives up

  /** The action of thread t leaves it without a connection, and not asleep. */
  predicate EmptyHanded(s: System, a: Action)
    requires Enabled(s, a)
  {
    (a.Get? || a.Continue?) && Apply(s, a).lent == s.lent && a.t !in Apply(s, a).sleeping
  }

  /** A get falls asleep exactly when the pool has nothing idle and has reached its cap; it gives up at once
      exactly after the abort, or when the connection that it may make cannot be made. */
  lemma GetWaits(s: System, a: Action)
    requires Good(s) && Enabled(s, a) && a.Get?
    ensures a.t in Apply(s, a).sleeping <==> !s.m.abort && s.m.free == [] && s.m.cnt >= s.m.max
    ensures EmptyHanded(s, a) <==> s.m.abort || (s.m.free == [] && s.m.cnt < s.m.max && a.made.None?)
  {
    if s.m.free != [] { assert s.m.free[0] in s.m.free; }
  }

  /** A woken get goes back to sleep exactly when nothing is idle and neither the abort flag nor its timeout
      ends the wait; it gives up exactly when one of these ends it and nothing is idle, or, in CachePool,
      after the abort. */
  lemma WokenWaits(s: System, a: Action)
    requires Good(s) && Enabled(s, a) && a.Continue?
    ensures a.t in Apply(s, a).sleeping <==> s.m.free == [] && !s.m.abort && !s.woken[a.t].expired
    ensures EmptyHanded(s, a) <==>
            (s.m.free == [] && (s.m.abort || s.woken[a.t].expired)) || (s.m.abort && s.kind.Cache?)
  {
    if s.m.free != [] { assert s.m.free[0] in s.m.free; }
  }

  /** Only a thread that waits with a timeout can be woken by it. */
  predicate Timely(s: System) {
    forall t <- s.woken :: s.woken[t].expired ==> s.woken[t].timed
  }

  lemma StepKeepsTimely(s: System, a: Action)
    requires Timely(s) && Enabled(s, a)
    ensures Timely(Apply(s, a))
  {
  }

  lemma {:induction false} RunKeepsTimely(s: System, run: seq<Action>)
    requires Timely(s) && Possible(s, run)
    ensures Timely(After(s, run))
    decreases |run|
  {
    hide Timely, Apply, Enabled;
    if run != [] {
      StepKeepsTimely(s, run[0]);
      RunKeepsTimely(Apply(s, run[0]), run[1..]);
    }
  }

  /** Patience, in every run: before the abort a get leaves without a connection only if it has made an
      attempt to make one, or has waited with a timeout that has run out; an untimed wait never ends so. */
  lemma NobodyLeavesEmptyHanded(k: Kind, name: string, max: int, conns: seq<Conn>, run: seq<Action>, a: Action)
    requires |conns| == MinCount(k) && Distinct(conns) && (forall c <- conns :: c.pool == name)
    requires Possible(Started(k, name, max, conns), run)
    requires var s := After(Started(k, name, max, conns), run);
             !s.m.abort && Enabled(s, a) && EmptyHanded(s, a)
    ensures var s := After(Started(k, name, max, conns), run);
            && s.m.free == []
            && (a.Get? ==> a.made.None? && s.m.cnt < s.m.max)
            && (a.Continue? ==> s.woken[a.t].timed && s.woken[a.t].expired)
  {
    hide Good, Timely, Apply, Enabled, EmptyHanded;
    var s := After(Started(k, name, max, conns), run);
    EveryRunIsGood(k, name, max, conns, run);
    NobodyWoken(Started(k, name, max, conns));
    RunKeepsTimely(Started(k, name, max, conns), run);
    ActsAlone(s, a);
    if a.Get? { GetWaits(s, a); } else { WokenWaits(s, a); }
    TimelyWoken(s);
  }

  lemma ActsAlone(s: System, a: Action)
    requires Enabled(s, a) && EmptyHanded(s, a)
    ensures a.Get? || (a.Continue? && a.t in s.woken)
  {
  }

  lemma NobodyWoken(s: System)
    requires s.woken == map[]
    ensures Timely(s)
  {
  }

  lemma TimelyWoken(s: System)
    requires Timely(s)
    ensures forall t <- s.woken :: s.woken[t].expired ==> s.woken[t].timed
  {
  }

  /** A release puts the connection at the end of the idle ones and wakes one sleeper, if there is one, and
      no more. */
  lemma ReleaseWakesOne(s: System, c: Conn, notified: Option<Thread>)
    requires Good(s) && Enabled(s, Release(c, notified))
    ensures var r := Apply(s, Release(c, notified));
            && r.m == s.m.(free := s.m.free + [c]) && r.lent == s.lent - {c}
            && (if s.sleeping == map[] then r.sleeping == map[] && r.woken == s.woken
                else exists t <- s.sleeping :: r.sleeping == s.sleeping - {t}
                                               && r.woken == s.woken[t := Wake(s.sleeping[t], false)])
  {
    assert c !in s.m.free;
    if s.sleeping != map[] { assert notified.value in s.sleeping; }
  }

  /** A sleeper is woken by its timeout, or for nothing, and takes the reason with it; neither changes the
      pool. What the destructor of CachePool leaves is an empty pool that counts nothing. */
  lemma WakeTells(s: System, a: Action)
    requires Enabled(s, a)
    ensures a.Expire? || a.Spurious? ==>
            Apply(s, a) == s.(sleeping := s.sleeping - {a.t}, woken := s.woken[a.t := Wake(s.sleeping[a.t], a.Expire?)])
    ensures a.Clear? ==> Apply(s, a) == s.(m := Monitor([], 0, s.m.max, true), cleared := true)
  {
  }

  /** The abort wakes every thread that sleeps; the destructor of DBPool empties the list with it. */
  lemma AbortWakesAll(s: System)
    requires Enabled(s, Abort)
    ensures var r := Apply(s, Abort);
            && r.m == s.m.(abort := true, free := if s.kind.Db? then [] else s.m.free)
            && r.sleeping == map[] && r.woken.Keys == s.woken.Keys + s.sleeping.Keys
            && forall t <- s.sleeping :: r.woken[t] == Wake(s.sleeping[t], false)
  {
  }

  /** After the abort flag is set a get hands out a connection exactly when it is one of DBPool's, was
      already waiting, and finds an idle connection: CachePool checks the flag after a wait, DBPool does
      not. */
  lemma HandsOutAfterAbort(s: System, a: Action)
    requires Enabled(s, a) && s.m.abort
    ensures HandedOut(s, a).Some? <==> s.kind.Db? && a.Continue? && s.m.free != []
  {
  }

  /** The connections handed out in a run, in order. */
  function Handed(s: System, run: seq<Action>): seq<Conn>
    requires Possible(s, run)
    decreases |run|
  {
    if run == [] then []
    else
      var o := HandedOut(s, run[0]);
      (if o.Some? then [o.value] else []) + Handed(Apply(s, run[0]), run[1..])
  }

  /** CachePool hands out nothing any more, in any run after the abort. */
  lemma {:induction false} CacheStaysShut(s: System, run: seq<Action>)
    requires s.kind.Cache? && s.m.abort && Possible(s, run)
    ensures Handed(s, run) == []
    decreases |run|
  {
    if run != [] {
      HandsOutAfterAbort(s, run[0]);
      AbortStays(s, run[0]);
      hide Apply, Enabled, HandedOut;
      CacheStaysShut(Apply(s, run[0]), run[1..]);
    }
  }

  lemma AbortStays(s: System, a: Action)
    requires Enabled(s, a) && s.m.abort
    ensures Apply(s, a).m.abort && Apply(s, a).kind == s.kind
  {
  }

  /** DBPool sets the flag in its destructor only, which clears the list in the same critical section, so
      an idle connection can only come from a release behind it: without one, in any run, it hands out
      nothing either. */
  lemma {:induction false} DbStaysShut(s: System, run: seq<Action>)
    requires s.kind.Db? && s.m.abort && s.m.free == [] && Possible(s, run)
    requires forall a <- run :: !a.Release?
    ensures Handed(s, run) == []
    decreases |run|
  {
    if run != [] {
      assert run[0] in run && forall a <- run[1..] :: a in run;
      HandsOutAfterAbort(s, run[0]);
      AbortStays(s, run[0]);
      StaysEmpty(s, run[0]);
      DbStaysShut(Apply(s, run[0]), run[1..]);
    }
  }

  lemma StaysEmpty(s: System, a: Action)
    requires Enabled(s, a) && s.m.abort && s.m.free == [] && !a.Release?
    ensures Apply(s, a).m.free == []
  {
  }

  /** Behind the destructor of DBPool some run hands out a connection if and only if one is still lent and
      a woken thread has not gone on yet: that connection must be released into the destroyed pool first,
      which C++ does not define. */
  lemma DbHandsOutOnlyByRelease(s: System)
    requires Good(s) && s.kind.Db? && s.m.abort && s.m.free == []
    ensures (exists run :: Possible(s, run) && Handed(s, run) != []) <==> s.lent != {} && s.woken != map[]
  {
    if s.lent != {} && s.woken != map[] {
      var c :| c in s.lent;
      var t :| t in s.woken;
      ReleaseThenContinue(s, c, t);
    }
    forall run | Possible(s, run) && (s.lent == {} || s.woken == map[]) ensures Handed(s, run) == [] {
      NothingComes(s, run);
    }
  }

  lemma ReleaseThenContinue(s: System, c: Conn, t: Thread)
    requires Good(s) && s.kind.Db? && s.m.abort && s.m.free == [] && c in s.lent && t in s.woken
    ensures var run := [Release(c, None)] + ([Continue(t)] + []); Possible(s, run) && Handed(s, run) == [c]
  {
    assert s.sleeping == map[];
    var r := Apply(s, Release(c, None));
    assert r.m.free == [c] && Enabled(r, Continue(t)) && HandedOut(r, Continue(t)) == Some(c);
    RunOf(r, Continue(t), []);
    RunOf(s, Release(c, None), [Continue(t)] + []);
  }

  /** What no step behind the abort changes, when nobody waits or nothing can come back. */
  predicate NobodyOrNothing(s: System) {
    s.m.abort && s.sleeping == map[] && (s.woken == map[] || (s.lent == {} && s.m.free == []))
  }

  lemma {:induction false} NothingComes(s: System, run: seq<Action>)
    requires NobodyOrNothing(s) && Possible(s, run)
    ensures Handed(s, run) == []
    decreases |run|
  {
    if run != [] {
      NothingStays(s, run[0]);
      HandsOutAfterAbort(s, run[0]);
      NothingComes(Apply(s, run[0]), run[1..]);
    }
  }

  lemma NothingStays(s: System, a: Action)
    requires NobodyOrNothing(s) && Enabled(s, a)
    ensures NobodyOrNothing(Apply(s, a))
  {
    if a.Continue? { assert s.woken - {a.t} != s.woken; }
  }

  /** A run by its first step. */
  lemma RunOf(s: System, a: Action, rest: seq<Action>)
    requires Enabled(s, a) && Possible(Apply(s, a), rest)
    ensures Possible(s, [a] + rest) && After(s, [a] + rest) == After(Apply(s, a), rest)
    ensures Handed(s, [a] + rest) ==
            (if HandedOut(s, a).Some? then [HandedOut(s, a).value] else []) + Handed(Apply(s, a), rest)
  {
    hide Apply, Enabled, HandedOut;
    assert ([a] + rest)[1..] == rest;
  }

  /** The connections put into the free list in a run, in order: those made and those given back. */
  function Added(s: System, run: seq<Action>): seq<Conn>
    requires Possible(s, run)
    decreases |run|
  {
    if run == [] then []
    else AddedBy(s, run[0]) + Added(Apply(s, run[0]), run[1..])
  }

  function AddedBy(s: System, a: Action): seq<Conn>
    requires Enabled(s, a)
  {
    match a
    case Get(_, _, made) =>
      if !s.m.abort && s.m.free == [] && s.m.cnt < s.m.max && made.Some? then [made.value] else []
    case Release(c, _) => if c in s.m.free then [] else [c]
    case _ => []
  }

  /** First in, first out: until the pool is cleared, the connections handed out, followed by those still
      idle, are those idle at first, followed by those added, in the same order. */
  lemma {:induction false} FirstInFirstOut(s: System, run: seq<Action>)
    requires Possible(s, run) && !After(s, run).cleared
    ensures Handed(s, run) + After(s, run).m.free == s.m.free + Added(s, run)
    decreases |run|
  {
    hide Apply, Enabled, HandedOut, AddedBy;
    if run != [] {
      var a, rest := run[0], run[1..];
      var r := Apply(s, a);
      if r.cleared { ClearedStays(r, rest); }
      FirstInFirstOut(r, rest);
      StepInOrder(s, a);
      var h := if HandedOut(s, a).Some? then [HandedOut(s, a).value] else [];
      calc {
        Handed(s, run) + After(s, run).m.free;
        h + Handed(r, rest) + After(r, rest).m.free;
        h + (Handed(r, rest) + After(r, rest).m.free);
        h + (r.m.free + Added(r, rest));
        (h + r.m.free) + Added(r, rest);
        s.m.free + AddedBy(s, a) + Added(r, rest);
        s.m.free + Added(s, run);
      }
    }
  }

  lemma StepInOrder(s: System, a: Action)
    requires Enabled(s, a) && !Apply(s, a).cleared
    ensures var h := if HandedOut(s, a).Some? then [HandedOut(s, a).value] else [];
            h + Apply(s, a).m.free == s.m.free + AddedBy(s, a)
  {
  }

  lemma {:induction false} ClearedStays(s: System, run: seq<Action>)
    requires Possible(s, run) && s.cleared
    ensures After(s, run).cleared
    decreases |run|
  {
    if run != [] {
      StepStaysCleared(s, run[0]);
      hide Apply, Enabled;
      ClearedStays(Apply(s, run[0]), run[1..]);
    }
  }

  lemma StepStaysCleared(s: System, a: Action)
    requires Enabled(s, a) && s.cleared
    ensures Apply(s, a).cleared
  {
  }

  /** What the scan in a release is good for: giving back any connection keeps the pool conserved exactly
      when it is lent or, a second time, already idle; a stranger breaks the count. */
  lemma ReleaseExactly(s: System, c: Conn)
    requires Good(s) && !s.cleared
    ensures Conserved(s.(m := Return(s.m, c).0, lent := s.lent - {c})) <==> c in s.lent || c in s.m.free
  {
    var r := s.(m := Return(s.m, c).0, lent := s.lent - {c});
    if c !in s.lent { assert r.lent == s.lent; }
  }
}
