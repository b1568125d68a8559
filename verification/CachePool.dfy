/** `CachePool` and the routing of `CacheManager` as the C++ code runs them: each method is one critical
    section, a wait ends it, and a later one takes up from there. */
module CachePools {
  import opened Options
  import opened Pools

  class CachePool {
    const poolName: string
    const maxConnCnt: int
    var freeList: seq<Conn>
    var curConnCnt: nat
    var abortRequest: bool

    function View(): Monitor
      reads this
    {
      Monitor(freeList, curConnCnt, maxConnCnt, abortRequest)
    }

    constructor (name: string, max: int)
      ensures poolName == name && maxConnCnt == max && freeList == [] && curConnCnt == 2 && !abortRequest
    {
      poolName, maxConnCnt := name, max;
      freeList, curConnCnt, abortRequest := [], MinCount(Cache), false;
    }

    /** `Init`: makes the first connections; outcomes tells what becomes of each. */
    method Init(outcomes: seq<Option<Conn>>) returns (code: nat)
      requires |outcomes| == curConnCnt
      modifies this`freeList
      ensures code == if AllMade(outcomes) then 0 else 1
      ensures freeList == old(freeList) + Made(outcomes)
    {
      for i := 0 to curConnCnt
        invariant AllMade(outcomes[..i]) && freeList == old(freeList) + Made(outcomes[..i])
      {
        if outcomes[i].None? {
          MadeStops(outcomes, i);
          assert outcomes[i] in outcomes;
          return 1;
        }
        MadeSnoc(outcomes[..i], outcomes[i]);
        assert outcomes[..i + 1] == outcomes[..i] + [outcomes[i]];
        freeList := freeList + [outcomes[i].value];
      }
      assert outcomes[..curConnCnt] == outcomes;
      code := 0;
    }

    /** `GetCacheConn` up to its return, or up to the wait on the condition variable; made is the new
        connection if making one succeeds. */
    method GetCacheConn(made: Option<Conn>) returns (o: Outcome)
      modifies this`freeList, this`curConnCnt
      ensures (View(), o) == Enter(old(View()), made)
      ensures o == Wait <==> !old(abortRequest) && old(freeList) == [] && old(curConnCnt) >= maxConnCnt
      ensures o == Null <==> old(abortRequest) || (old(freeList) == [] && old(curConnCnt) < maxConnCnt && made.None?)
      ensures o.Got? ==>
              if old(freeList) != [] then o.conn == old(freeList)[0] && freeList == old(freeList)[1..]
              else Some(o.conn) == made && freeList == []
      ensures curConnCnt == old(curConnCnt) + if o.Got? && old(freeList) == [] then 1 else 0
      ensures !o.Got? ==> freeList == old(freeList)
    {
      if abortRequest { return Null; }
      if freeList == [] {
        if curConnCnt >= maxConnCnt {
          return Wait;
        } else {
          if made.None? { return Null; }
          freeList := freeList + [made.value];
          assert freeList == [made.value];
          curConnCnt := curConnCnt + 1;
        }
      }
      o := PopFront();
    }

    method PopFront() returns (o: Outcome)
      requires freeList != []
      modifies this`freeList
      ensures (View(), o) == Take(old(View()))
    {
      o := Got(freeList[0]);
      freeList := freeList[1..];
    }

    /** `GetCacheConn` when its thread has woken up and holds the mutex again: either the predicate of the
        wait sends it back to sleep, or the get goes on behind the wait. */
    method GoOn(timed: bool, expired: bool) returns (o: Outcome)
      requires expired ==> timed
      modifies this`freeList
      ensures (View(), o) == Resume(Cache, old(View()), expired)
      ensures o == Wait <==> old(freeList) == [] && !abortRequest && !expired
      ensures o == Null <==> abortRequest || (old(freeList) == [] && expired)
      ensures if o.Got? then old(freeList) == [o.conn] + freeList else freeList == old(freeList)
    {
      if !(freeList != [] || abortRequest) && !expired { return Wait; }
      if timed && freeList == [] { return Null; }
      if abortRequest { return Null; }
      o := PopFront();
    }

    /** `RelCacheConn`; notify tells whether it notifies a waiting thread. */
    method RelCacheConn(conn: Conn) returns (notify: bool)
      modifies this`freeList
      ensures (View(), notify) == Return(old(View()), conn)
      ensures notify <==> conn !in old(freeList)
      ensures freeList == old(freeList) + if notify then [conn] else []
    {
      var it := 0;
      while it != |freeList|
        invariant it <= |freeList| && conn !in freeList[..it]
      {
        if freeList[it] == conn { break; }
        it := it + 1;
      }
      notify := it == |freeList|;
      if notify {
        assert freeList[..it] == freeList;
        freeList := freeList + [conn];
      }
    }

    /** The first critical section of the destructor: all waiting threads are notified. */
    method Abort() returns (notifyAll: bool)
      modifies this`abortRequest
      ensures (View(), notifyAll) == Shut(Cache, old(View())) && abortRequest && notifyAll
    {
      abortRequest := true;
      notifyAll := true;
    }

    /** The rest of the destructor: deletes the idle connections, each of them once. */
    method Clear() returns (deleted: seq<Conn>)
      modifies this`freeList, this`curConnCnt
      ensures deleted == old(freeList) && freeList == [] && curConnCnt == 0
    {
      deleted := [];
      for it := 0 to |freeList|
        invariant freeList == old(freeList) && deleted == freeList[..it]
      {
        deleted := deleted + [freeList[it]];
      }
      freeList, curConnCnt := [], 0;
    }
  }

  /** What the configuration says about a pool: complete is false when a setting is missing. */
  datatype Entry = Entry(name: string, complete: bool, max: int, outcomes: seq<Option<Conn>>)

  /** How `Init` takes an entry: 2 when a setting is missing, 3 when the pool cannot make its connections. */
  function EntryCode(e: Entry): nat {
    if !e.complete then 2 else if !AllMade(e.outcomes) then 3 else 0
  }

  /** The entries up to the first that is not usable, and its code. */
  function Usable(entries: seq<Entry>): seq<Entry>
    decreases |entries|
  {
    if entries == [] || EntryCode(entries[0]) != 0 then [] else [entries[0]] + Usable(entries[1..])
  }

  function InitCode(entries: seq<Entry>): nat
    decreases |entries|
  {
    if entries == [] then 0
    else if EntryCode(entries[0]) != 0 then EntryCode(entries[0])
    else InitCode(entries[1..])
  }

  lemma {:induction false} UsableSnoc(front: seq<Entry>, rest: seq<Entry>)
    requires Usable(front) == front && InitCode(front) == 0
    ensures Usable(front + rest) == front + Usable(rest) && InitCode(front + rest) == InitCode(rest)
    decreases |front|
  {
    if front == [] {
      assert front + rest == rest;
    } else {
      assert (front + rest)[1..] == front[1..] + rest;
      assert Usable(front)[1..] == Usable(front[1..]);
      UsableSnoc(front[1..], rest);
    }
  }

  lemma NothingListed(entries: seq<Entry>)
    ensures var none := entries[..0]; Usable(none) == none && InitCode(none) == 0 && Listed(none) == map[]
  {
  }

  /** One entry further on. */
  lemma NextEntry(entries: seq<Entry>, k: nat)
    requires k < |entries| && Usable(entries[..k]) == entries[..k] && InitCode(entries[..k]) == 0
    ensures var e := entries[k];
            if EntryCode(e) != 0 then Usable(entries) == entries[..k] && InitCode(entries) == EntryCode(e)
            else Usable(entries[..k + 1]) == entries[..k + 1] && InitCode(entries[..k + 1]) == 0
  {
    if EntryCode(entries[k]) != 0 {
      assert entries[..k] + entries[k..] == entries && entries[k..][0] == entries[k];
      UsableSnoc(entries[..k], entries[k..]);
    } else {
      assert entries[..k + 1] == entries[..k] + [entries[k]] && [entries[k]][1..] == [];
      UsableSnoc(entries[..k], [entries[k]]);
    }
  }

  lemma NextListed(entries: seq<Entry>, k: nat)
    requires k < |entries|
    ensures Listed(entries[..k + 1]) == Insert(Listed(entries[..k]), entries[k])
  {
    assert entries[..k + 1][..k] == entries[..k];
  }

  class CacheManager {
    var pools: map<string, CachePool>

    constructor ()
      ensures pools == map[]
    {
      pools := map[];
    }

    /** Every pool is listed under its own name, so no two names share a pool. */
    ghost predicate Valid()
      reads this
    {
      forall name <- pools :: pools[name].poolName == name
    }

    /** The idle connections of every pool are its own. */
    ghost predicate AllHome()
      reads this, pools.Values
    {
      forall name <- pools :: forall c <- pools[name].freeList :: c.pool == name
    }

    /** The pools by name, as they stand. */
    ghost predicate Shows(views: map<string, Monitor>)
      reads this, pools.Values
    {
      pools.Keys == views.Keys && forall name <- pools :: pools[name].View() == views[name]
    }

    /** One round of `Init`: `insert` keeps a pool that has the name already. */
    method AddPool(e: Entry, ghost views: map<string, Monitor>) returns (code: nat)
      requires Valid() && |e.outcomes| == 2 && Shows(views)
      modifies this
      ensures Valid() && code == EntryCode(e) && Shows(if code == 0 then Insert(views, e) else views)
      ensures code == if !e.complete then 2 else if None in e.outcomes then 3 else 0
      ensures forall name <- pools :: fresh(pools[name]) || (name in old(pools) && pools[name] == old(pools)[name])
    {
      if !e.complete { return 2; }
      var pool := new CachePool(e.name, e.max);
      var failed := pool.Init(e.outcomes);
      if failed != 0 { return 3; }
      if e.name !in pools { pools := pools[e.name := pool]; }
      code := 0;
    }

    /** `Init`: one pool for each entry of the configuration, if it lists any; an entry whose name is taken
        already is dropped. */
    method Init(config: Option<seq<Entry>>) returns (code: nat)
      requires pools == map[] && (config.Some? ==> forall e <- config.value :: |e.outcomes| == 2)
      modifies this
      ensures Valid() && forall name <- pools :: fresh(pools[name])
      ensures code == if config.None? then 1 else InitCode(config.value)
      ensures config.Some? ==> Shows(Listed(Usable(config.value)))
      ensures code == 0 ==> forall i | IsFirst(config.value, i) :: HasPoolOf(config.value[i])
      ensures code == 0 ==> forall name <- pools :: exists e <- config.value :: e.name == name
    {
      if config.None? {
        return 1;
      }
      var entries := config.value;
      hide Usable, InitCode, Listed, Insert, EntryCode, IsFirst, HasPoolOf;
      NothingListed(entries);
      for k := 0 to |entries|
        invariant Valid() && (forall name <- pools :: fresh(pools[name])) && Shows(Listed(entries[..k]))
        invariant Usable(entries[..k]) == entries[..k] && InitCode(entries[..k]) == 0
      {
        assert entries[k] in entries;
        NextEntry(entries, k);
        NextListed(entries, k);
        code := AddPool(entries[k], Listed(entries[..k]));
        if code != 0 { return; }
      }
      assert entries[..|entries|] == entries;
      code := 0;
      ShowsConfigured(entries);
    }

    lemma ShowsConfigured(entries: seq<Entry>)
      requires Valid() && Shows(Listed(entries)) && Usable(entries) == entries
      requires forall e <- entries :: |e.outcomes| == 2
      ensures forall i | IsFirst(entries, i) :: HasPoolOf(entries[i])
      ensures forall name <- pools :: exists e <- entries :: e.name == name
    {
      forall i | IsFirst(entries, i) ensures HasPoolOf(entries[i]) {
        FirstWins(entries, i);
        assert entries[i] in entries;
        UsableMade(entries, i);
        BothMade(entries[i].outcomes);
      }
      forall name <- pools ensures exists e <- entries :: e.name == name {
        OnlyConfigured(entries, name);
      }
    }

    /** The pool of an entry, as the configuration describes it: two connections made, and the cap. */
    ghost predicate HasPoolOf(e: Entry)
      reads this, pools.Values
    {
      && e.name in pools
      && var pool := pools[e.name];
         && pool.poolName == e.name && pool.maxConnCnt == e.max && pool.curConnCnt == 2 && !pool.abortRequest
         && |pool.freeList| == 2 && [Some(pool.freeList[0]), Some(pool.freeList[1])] == e.outcomes
    }

    /** `GetCacheConn` of the manager, without a timeout. */
    method GetCacheConn(name: string, made: Option<Conn>) returns (o: Outcome)
      requires Valid() && AllHome() && (made.Some? ==> made.value.pool == name)
      modifies pools.Values
      ensures if name in pools then (pools[name].View(), o) == Enter(old(pools[name].View()), made) else o == Null
      ensures name in pools ==>
              var pool := pools[name];
              var empty, full := old(pool.freeList) == [], old(pool.curConnCnt) >= pool.maxConnCnt;
              && (o == Wait <==> !old(pool.abortRequest) && empty && full)
              && (o == Null <==> old(pool.abortRequest) || (empty && !full && made.None?))
              && (o.Got? ==> if empty then Some(o.conn) == made else o.conn == old(pool.freeList)[0])
      ensures forall other <- pools | other != name :: pools[other].View() == old(pools[other].View())
      ensures AllHome() && (o.Got? ==> name in pools && o.conn.pool == name)
    {
      if name in pools {
        assert pools[name] in pools.Values;
        o := pools[name].GetCacheConn(made);
      } else {
        o := Null;
      }
    }

    /** `RelCacheConn` of the manager: the connection goes back to the pool it came from, and to no
        other. */
    method RelCacheConn(conn: Option<Conn>) returns (notify: bool)
      requires Valid() && AllHome()
      modifies pools.Values
      ensures if conn.Some? && conn.value.pool in pools
              then var name := conn.value.pool;
                   && (pools[name].View(), notify) == Return(old(pools[name].View()), conn.value)
                   && (notify <==> conn.value !in old(pools[name].freeList))
                   && pools[name].freeList == old(pools[name].freeList) + if notify then [conn.value] else []
              else !notify
      ensures forall other <- pools | conn.None? || other != conn.value.pool ::
                pools[other].View() == old(pools[other].View())
      ensures AllHome()
    {
      notify := false;
      if conn.None? { return; }
      var name := conn.value.pool;
      if name in pools {
        assert pools[name] in pools.Values;
        notify := pools[name].RelCacheConn(conn.value);
      }
    }
  }

  function InitialView(e: Entry): Monitor {
    Monitor(Made(e.outcomes), MinCount(Cache), e.max, false)
  }

  /** The pools that the entries give: `insert` keeps the first of a name. */
  function Listed(entries: seq<Entry>): map<string, Monitor>
    decreases |entries|
  {
    if entries == [] then map[]
    else
      Insert(Listed(entries[..|entries| - 1]), entries[|entries| - 1])
  }

  function Insert(views: map<string, Monitor>, e: Entry): map<string, Monitor> {
    if e.name in views then views else views[e.name := InitialView(e)]
  }

  predicate IsFirst(entries: seq<Entry>, i: int) {
    0 <= i < |entries| && forall j | 0 <= j < i :: entries[j].name != entries[i].name
  }

  /** The entries that are usable make all of their connections. */
  lemma {:induction false} UsableMade(entries: seq<Entry>, i: nat)
    requires Usable(entries) == entries && i < |entries|
    ensures entries[i].complete && AllMade(entries[i].outcomes)
    decreases |entries|
  {
    if i > 0 {
      assert Usable(entries)[1..] == Usable(entries[1..]);
      UsableMade(entries[1..], i - 1);
    }
  }

  /** The entry at i is the first that is not usable: it misses a setting, or one of its connections cannot
      be made. */
  predicate FirstFailure(entries: seq<Entry>, i: int, code: nat) {
    && 0 <= i < |entries|
    && (forall j | 0 <= j < i :: entries[j].complete && None !in entries[j].outcomes)
    && (if entries[i].complete then None in entries[i].outcomes && code == 3 else code == 2)
  }

  lemma {:induction false} InitFails(entries: seq<Entry>, code: nat)
    ensures code != 0 ==> (InitCode(entries) == code <==> exists i :: FirstFailure(entries, i, code))
    ensures InitCode(entries) == 0 <==> forall e <- entries :: e.complete && None !in e.outcomes
    decreases |entries|
  {
    if entries != [] {
      var rest := entries[1..];
      InitFails(rest, code);
      assert entries[0] in entries && entries == [entries[0]] + rest;
      if EntryCode(entries[0]) != 0 {
        assert FirstFailure(entries, 0, EntryCode(entries[0]));
      } else {
        if i :| FirstFailure(rest, i, code) { assert FirstFailure(entries, i + 1, code); }
        if i :| FirstFailure(entries, i, code) { assert FirstFailure(rest, i - 1, code); }
      }
    }
  }

  /** Every configured name has a pool, and it is the one of the first entry with that name. */
  lemma {:induction false} FirstWins(entries: seq<Entry>, i: nat)
    requires i < |entries|
    ensures entries[i].name in Listed(entries)
    ensures var e := entries[i];
            IsFirst(entries, i) ==> Listed(entries)[e.name] == Monitor(Made(e.outcomes), 2, e.max, false)
    decreases |entries|
  {
    var n := |entries| - 1;
    if i < n {
      FirstWins(entries[..n], i);
      assert forall j | 0 <= j < n :: entries[..n][j] == entries[j];
    } else if IsFirst(entries, i) {
      OnlyConfigured(entries[..n], entries[i].name);
      if e :| e in entries[..n] && e.name == entries[i].name { assert false; }
    }
  }

  lemma {:induction false} OnlyConfigured(entries: seq<Entry>, name: string)
    ensures name in Listed(entries) ==> exists e <- entries :: e.name == name
    decreases |entries|
  {
    if entries != [] && name in Listed(entries) {
      var n := |entries| - 1;
      OnlyConfigured(entries[..n], name);
      if name != entries[n].name {
        var e :| e in entries[..n] && e.name == name;
        assert e in entries;
      } else {
        assert entries[n] in entries;
      }
    }
  }

  lemma BothMade(outcomes: seq<Option<Conn>>)
    requires |outcomes| == 2 && AllMade(outcomes)
    ensures var cs := Made(outcomes); |cs| == 2 && [Some(cs[0]), Some(cs[1])] == outcomes
  {
    assert outcomes[0] in outcomes && outcomes[1] in outcomes;
  }
}
