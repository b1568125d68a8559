/** `http_parser_parse_url` as the C code runs it: loops that fill `struct http_parser_url` in place,
    proved equal to Urls.ParseUrlFrom. */
module UrlParser {
  import opened Options
  import opened Parser
  import opened Urls

  /** The value of an `enum http_parser_url_fields` constant. */
  function Number(f: UrlField): nat {
    match f
    case UfSchema => 0 case UfHost => 1 case UfPort => 2 case UfPath => 3
    case UfQuery => 4 case UfFragment => 5 case UfUserinfo => 6
  }

  const UF_MAX: nat := 7
  class HttpParserUrl {
    var fieldSet: set<UrlField>
    var port: nat
    const fieldData: array<Slice>

    predicate Valid()
      reads this, fieldData
    {
      fieldData.Length == UF_MAX && forall i | 0 <= i < UF_MAX :: fieldData[i] == Narrow(fieldData[i])
    }

    function At(f: UrlField): Slice
      requires Valid()
      reads this, fieldData
    {
      fieldData[Number(f)]
    }

    /** The index of each field, by which callers read `field_data`. */
    lemma FieldIndex()
      requires Valid()
      ensures At(UfSchema) == fieldData[0] && At(UfHost) == fieldData[1] && At(UfPort) == fieldData[2]
      ensures At(UfPath) == fieldData[3] && At(UfQuery) == fieldData[4] && At(UfFragment) == fieldData[5]
      ensures At(UfUserinfo) == fieldData[6]
    {
    }

    /** The fields that are set, and where they are. */
    ghost function View(): Fields
      requires Valid()
      reads this, fieldData
    {
      map f | f in fieldSet :: At(f)
    }

    constructor ()
      ensures Valid() && fresh(fieldData) && fieldSet == {} && port == 0 && forall f :: At(f) == Slice(0, 0)
    {
      fieldSet, port := {}, 0;
      fieldData := new Slice[UF_MAX](i => Slice(0, 0));
    }

    /** Opens field f at offset p with one byte. */
    method Open(f: UrlField, p: nat)
      requires Valid()
      modifies this`fieldSet, fieldData
      ensures Valid() && At(f) == Narrow(Slice(p, 1)) && fieldSet == old(fieldSet) + {f}
      ensures View() == old(View())[f := Narrow(Slice(p, 1))]
      ensures forall g | g != f :: At(g) == old(At(g))
    {
      hide Narrow;
      NarrowTwice(Slice(p, 1));
      fieldData[Number(f)] := Narrow(Slice(p, 1));
      fieldSet := fieldSet + {f};
    }

    /** One more byte for field f. */
    method Grow(f: UrlField)
      requires Valid()
      modifies fieldData
      ensures Valid() && At(f) == Narrow(old(Longer(At(f))))
      ensures forall g | g != f :: At(g) == old(At(g))
      ensures f in fieldSet ==> View() == old(View())[f := Narrow(old(Longer(At(f))))]
    {
      hide Narrow;
      NarrowTwice(Longer(fieldData[Number(f)]));
      fieldData[Number(f)] := Narrow(Longer(fieldData[Number(f)]));
    }

    /** The byte at p belongs to field f: the same field as before, or a new one. */
    method Take(ghost u: Fields, f: UrlField, oldUf: Option<UrlField>, p: nat)
      requires Valid() && View() == NarrowFields(u) && (oldUf.Some? ==> oldUf.value in u)
      modifies this`fieldSet, fieldData
      ensures Valid() && View() == NarrowFields(u[f := if oldUf == Some(f) then Longer(u[f]) else Slice(p, 1)])
      ensures fieldSet == old(fieldSet) + {f}
      ensures forall g | g != f :: At(g) == old(At(g))
    {
      hide Narrow, NarrowFields, View;
      Viewed();
      NarrowUpdate(u, f, if oldUf == Some(f) then Longer(u[f]) else Slice(p, 1));
      if oldUf == Some(f) {
        LongerNarrow(u[f]);
        Grow(f);
      } else {
        Open(f, p);
      }
    }

    /** The loop of the first pass; false when it meets a byte that cannot be. */
    method CutFields(buf: string, isConnect: bool) returns (ok: bool, foundAt: bool)
      requires Valid()
      modifies this, fieldData
      ensures Valid() && port == 0
      ensures var x := FirstPass(isConnect, buf);
              ok == !x.s.Dead? && (ok ==> View() == NarrowFields(x.u) && foundAt == x.at)
      ensures ok && UfHost !in fieldSet ==> At(UfHost) == old(At(UfHost))
    {
      hide ParseUrlChar, View, NarrowFields, Narrow;
      var s := if isConnect then ReqServerStart else ReqSpacesBeforeUrl;
      var uf, oldUf := None, None;
      var p := 0;
      ok, foundAt := true, false;
      fieldSet, port := {}, 0;
      NothingSet();
      while p < |buf|
        invariant p <= |buf| && Valid() && port == 0
        invariant var x := FirstPass(isConnect, buf[..p]);
                  x == Cut(s, oldUf, x.u, foundAt) && View() == NarrowFields(x.u) && !s.Dead?
        invariant UfHost !in fieldSet ==> At(UfHost) == old(At(UfHost))
      {
        ghost var x := FirstPass(isConnect, buf[..p]);
        assert buf[..p + 1][..p] == buf[..p];
        s := ParseUrlChar(s, buf[p]);
        if s.Dead? {
          DeadForGood(isConnect, buf, p + 1);
          return false, foundAt;
        }
        if s.ReqServerWithAt? { foundAt := true; }
        uf := FieldOf(s);
        if uf.Some? {
          Take(x.u, uf.value, oldUf, p);
          oldUf := uf;
        }
        p := p + 1;
      }
      assert buf[..p] == buf;
    }

    lemma NothingSet()
      requires Valid() && fieldSet == {}
      ensures View() == NarrowFields(map[])
    {
    }

    /** The byte at p leads the second pass from state s to t. */
    method WriteHost(ghost u: Fields, ghost y: HostCut, s: HostState, t: HostState, p: nat)
      requires Valid() && Holds(u, y) && y.s == s
      requires (s.PortPart? ==> y.port.Some?) && (s.UserinfoPart? ==> y.userinfo.Some?)
      modifies this`fieldSet, fieldData
      ensures Valid() && Holds(u, EnterHost(y, t, p))
    {
      hide Narrow;
      if t.HostPart? || t.V6Part? {
        LongerNarrow(y.host);
        RestartNarrow(y.host, p);
        if s != t { fieldData[Number(UfHost)] := Narrow(Slice(p, At(UfHost).len)); }
        Grow(UfHost);
      } else if t.PortPart? {
        if s.PortPart? { LongerNarrow(y.port.value); Grow(UfPort); } else { Open(UfPort, p); }
      } else if t.UserinfoPart? {
        if s.UserinfoPart? { LongerNarrow(y.userinfo.value); Grow(UfUserinfo); } else { Open(UfUserinfo, p); }
      }
    }

    /** `http_parse_host`: cuts the host field into userinfo, host and port; 1 is an error. */
    method ParseHost(buf: string, foundAt: bool) returns (code: nat)
      requires Valid() && At(UfHost).off + At(UfHost).len <= |buf|
      requires UfPort !in fieldSet && UfUserinfo !in fieldSet
      modifies this`fieldSet, fieldData
      ensures Valid()
      ensures var h := old(At(UfHost)); var y := SecondPass(foundAt, buf, h.off, h.off + h.len);
              code == (if HostMayEnd(y.s) then 0 else 1) && (code == 0 ==> View() == Merge(old(View()), NarrowHost(y)))
    {
      hide ParseHostChar, Narrow, Holds, EnterHost, Merge, Ends, View;
      Viewed();
      ghost var u := View();
      var off := fieldData[Number(UfHost)].off;
      var buflen := off + fieldData[Number(UfHost)].len;
      EmptyNarrow(fieldData[Number(UfHost)]);
      fieldData[Number(UfHost)] := Slice(off, 0);
      var s := if foundAt then UserinfoStart else HostStart;
      var p := off;
      HoldsFirst(u, SecondPass(foundAt, buf, off, off));
      while p < buflen
        invariant off <= p <= buflen && Valid() && !s.HostDead?
        invariant var y := SecondPass(foundAt, buf, off, p); y.s == s && Holds(u, y)
      {
        var t := ParseHostChar(s, buf[p]);
        if t.HostDead? {
          HostDeadForGood(foundAt, buf, off, p + 1, buflen);
          return 1;
        }
        WriteHost(u, SecondPass(foundAt, buf, off, p), s, t, p);
        s := t;
        p := p + 1;
      }
      code := if HostMayEnd(s) then 0 else 1;
      Merged(u, SecondPass(foundAt, buf, off, buflen));
    }

    /** The fields in the midst of the second pass: those of u, and those that the pass has written. */
    ghost predicate Holds(u: Fields, y: HostCut)
      requires Valid()
      reads this, fieldData
    {
      && At(UfHost) == Narrow(y.host)
      && (UfPort in fieldSet <==> y.port.Some?) && (y.port.Some? ==> At(UfPort) == Narrow(y.port.value))
      && (UfUserinfo in fieldSet <==> y.userinfo.Some?)
      && (y.userinfo.Some? ==> At(UfUserinfo) == Narrow(y.userinfo.value))
      && forall f | f !in {UfPort, UfUserinfo} ::
           (f in fieldSet <==> f in u) && (f in u && f != UfHost ==> At(f) == u[f])
    }

    lemma HoldsFirst(u: Fields, y: HostCut)
      requires Valid() && y.host == At(UfHost) && y.port.None? && y.userinfo.None?
      requires UfPort !in fieldSet && UfUserinfo !in fieldSet && u.Keys == fieldSet
      requires forall f <- u :: f == UfHost || u[f] == At(f)
      ensures Holds(u, y)
    {
      hide Narrow;
    }

    lemma Merged(u: Fields, y: HostCut)
      requires Valid() && Holds(u, y) && UfPort !in u && UfUserinfo !in u
      ensures View() == Merge(u, NarrowHost(y))
    {
    }

    /** `http_parser_parse_url`; a host field that the struct holds already must lie inside the buffer if it
        is read. */
    method ParseUrl(buf: string, isConnect: bool) returns (code: nat)
      requires Valid() && StaleFits(isConnect, buf, At(UfHost))
      modifies this, fieldData
      ensures Valid()
      ensures var r := ParseUrlFrom(isConnect, buf, old(At(UfHost)));
              code == (if r.Some? then 0 else 1) && (r.Some? ==> View() == r.value.fields && port == r.value.port)
    {
      hide View, FirstPass, SecondPass, HostMayEnd, Finish, Narrow;
      var ok, foundAt := CutFields(buf, isConnect);
      if !ok { return 1; }
      Viewed();
      if UfSchema in fieldSet || UfHost in fieldSet {
        code := ParseHost(buf, foundAt);
        if code != 0 { return 1; }
        Viewed();
      }
      code := ReadPort(buf, isConnect);
    }

    lemma Viewed()
      requires Valid()
      ensures View().Keys == fieldSet && forall f <- fieldSet :: View()[f] == At(f)
    {
    }

    /** The end of `http_parser_parse_url`: what CONNECT is held to, and the number of the port. */
    method ReadPort(buf: string, isConnect: bool) returns (code: nat)
      requires Valid() && port == 0 && (UfPort in fieldSet ==> At(UfPort).off <= |buf|)
      modifies this`port
      ensures Valid() && View() == old(View())
      ensures var r := Finish(isConnect, buf, View());
              code == (if r.Some? then 0 else 1) && (r.Some? ==> View() == r.value.fields && port == r.value.port)
    {
      hide Strtoul;
      if isConnect && fieldSet != {UfHost, UfPort} { return 1; }
      Viewed();
      if UfPort in fieldSet {
        var v := Strtoul(buf[At(UfPort).off..]);
        if v > MAX_PORT { return 1; }
        port := v;
      }
      code := 0;
    }
  }

  lemma NarrowTwice(x: Slice)
    ensures Narrow(Narrow(x)) == Narrow(x)
  {
  }

  lemma EmptyNarrow(x: Slice)
    requires x == Narrow(x)
    ensures Narrow(Slice(x.off, 0)) == Slice(x.off, 0)
  {
  }

  lemma NarrowUpdate(u: Fields, f: UrlField, x: Slice)
    ensures NarrowFields(u[f := x]) == NarrowFields(u)[f := Narrow(x)]
  {
    hide Narrow;
  }

  lemma RestartNarrow(x: Slice, p: nat)
    ensures Narrow(Narrow(Slice(p, Narrow(x).len))) == Narrow(Slice(p, Narrow(x).len))
    ensures Narrow(Longer(Narrow(Slice(p, Narrow(x).len)))) == Narrow(Slice(p, x.len + 1))
  {
  }

  /** Counting up in 16 bits. */
  lemma LongerNarrow(x: Slice)
    ensures Narrow(Longer(Narrow(x))) == Narrow(Longer(x))
  {
  }

  lemma {:induction false} DeadForGood(connect: bool, buf: string, n: nat)
    requires n <= |buf| && FirstPass(connect, buf[..n]).s.Dead?
    ensures FirstPass(connect, buf).s.Dead?
    decreases |buf|
  {
    if n == |buf| {
      assert buf[..n] == buf;
    } else {
      var front := buf[..|buf| - 1];
      assert front[..n] == buf[..n];
      DeadForGood(connect, front, n);
    }
  }

  lemma {:induction false} HostDeadForGood(at: bool, buf: string, off: nat, n: nat, hi: nat)
    requires off <= n <= hi <= |buf| && SecondPass(at, buf, off, n).s.HostDead?
    ensures SecondPass(at, buf, off, hi).s.HostDead?
    decreases hi
  {
    hide EnterHost, ParseHostChar;
    if n < hi { HostDeadForGood(at, buf, off, n, hi - 1); }
  }
}
