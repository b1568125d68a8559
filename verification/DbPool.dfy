/** `DBPool` as the C++ code runs it: each method is one critical section. */
module DbPools {
  import opened Options
  import opened Pools

  class DBPool {
    const poolName: string
    const maxConnCnt: int
    var freeList: seq<Conn>
    var curConnCnt: nat
    var abortRequest: bool

    function View(): Monitor
      reads this
    {
      Monitor(freeList, curConnCnt, maxConnCnt, abortRequest)
    }

    constructor (name: string, max: int)
      ensures poolName == name && maxConnCnt == max && freeList == [] && curConnCnt == 1 && !abortRequest
    {
      poolName, maxConnCnt := name, max;
      freeList, curConnCnt, abortRequest := [], MinCount(Db), false;
    }

    /** `init`: makes the first connections; outcomes tells what becomes of each, and failure is the
        error code of the one that fails. */
    method Init(outcomes: seq<Option<Conn>>, failure: int) returns (code: int)
      requires |outcomes| == curConnCnt && failure != 0
      modifies this`freeList
      ensures code == if AllMade(outcomes) then 0 else failure
      ensures freeList == old(freeList) + Made(outcomes)
    {
      for i := 0 to curConnCnt
        invariant AllMade(outcomes[..i]) && freeList == old(freeList) + Made(outcomes[..i])
      {
        if outcomes[i].None? {
          MadeStops(outcomes, i);
          assert outcomes[i] in outcomes;
          return failure;
        }
        MadeSnoc(outcomes[..i], outcomes[i]);
        assert outcomes[..i + 1] == outcomes[..i] + [outcomes[i]];
        freeList := freeList + [outcomes[i].value];
      }
      assert outcomes[..curConnCnt] == outcomes;
      code := 0;
    }

    /** `getConnection` up to its return, or up to the wait on the condition variable. */
    method GetConnection(made: Option<Conn>) returns (o: Outcome)
      modifies this`freeList, this`curConnCnt
      ensures (View(), o) == Enter(old(View()), made)
      ensures o == Wait <==> !old(abortRequest) && old(freeList) == [] && old(curConnCnt) >= maxConnCnt
      ensures o == Null <==> old(abortRequest) || (old(freeList) == [] && old(curConnCnt) < maxConnCnt && made.None?)
      ensures o.Got? ==>
              if old(freeList) != [] then o.conn == old(freeList)[0] && freeList == old(freeList)[1..]
              else Some(o.conn) == made && freeList == []
      ensures curConnCnt == old(curConnCnt) + if o.Got? && old(freeList) == [] then 1 else 0
      ensures !o.Got? ==> freeList == old(freeList)
    {
      if abortRequest { return Null; }
      if freeList == [] {
        if curConnCnt >= maxConnCnt {
          return Wait;
        } else {
          if made.None? { return Null; }
          freeList := freeList + [made.value];
          assert freeList == [made.value];
          curConnCnt := curConnCnt + 1;
        }
      }
      o := Got(freeList[0]);
      freeList := freeList[1..];
    }

    /** `getConnection` when its thread has woken up and holds the mutex again: an empty list ends it, the
        abort flag does not. */
    method GoOn(expired: bool) returns (o: Outcome)
      modifies this`freeList
      ensures (View(), o) == Resume(Db, old(View()), expired)
      ensures o == Wait <==> old(freeList) == [] && !abortRequest && !expired
      ensures o == Null <==> old(freeList) == [] && (abortRequest || expired)
      ensures if o.Got? then old(freeList) == [o.conn] + freeList else freeList == old(freeList)
    {
      if !(freeList != [] || abortRequest) && !expired { return Wait; }
      if freeList == [] { return Null; }
      o := Got(freeList[0]);
      freeList := freeList[1..];
    }

    /** `releaseConnection`; notify tells whether it notifies a waiting thread. */
    method ReleaseConnection(conn: Conn) returns (notify: bool)
      modifies this`freeList
      ensures (View(), notify) == Return(old(View()), conn)
      ensures notify <==> conn !in old(freeList)
      ensures freeList == old(freeList) + if notify then [conn] else []
    {
      var iter := 0;
      while iter != |freeList|
        invariant iter <= |freeList| && conn !in freeList[..iter]
      {
        if freeList[iter] == conn { break; }
        iter := iter + 1;
      }
      notify := iter == |freeList|;
      if notify {
        assert freeList[..iter] == freeList;
        freeList := freeList + [conn];
      }
    }

    /** The destructor, one critical section: all waiting threads are notified, and the idle connections
        deleted. */
    method Destroy() returns (deleted: seq<Conn>, notifyAll: bool)
      modifies this`freeList, this`abortRequest
      ensures (View(), notifyAll) == Shut(Db, old(View()))
      ensures deleted == old(freeList) && freeList == [] && abortRequest && notifyAll
    {
      abortRequest := true;
      notifyAll := true;
      deleted := [];
      for iter := 0 to |freeList|
        invariant freeList == old(freeList) && deleted == freeList[..iter]
        invariant View() == old(View()).(abort := true)
      {
        deleted := deleted + [freeList[iter]];
      }
      freeList := [];
    }
  }
}
