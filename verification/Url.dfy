/** What `http_parser_parse_url` computes: two passes over the URL, the first cuts it into fields, the
    second cuts the host field. The imperative form is in module UrlParser. */
module Urls {
  import opened Chars
  import opened Options
  import opened Parser

  datatype UrlField = UfSchema | UfHost | UfPort | UfPath | UfQuery | UfFragment | UfUserinfo

  /** A field of the URL as a stretch of the buffer. */
  datatype Slice = Slice(off: nat, len: nat)

  /** `field_set` and `field_data`: the fields that are set, and where they are. */
  type Fields = map<UrlField, Slice>

  /** Every field lies in the first n bytes. */
  predicate Within(u: Fields, n: nat) {
    forall f | f in u :: u[f].off + u[f].len <= n
  }

  // ---------------------------------------------------------------- the first pass

  /** The field that a byte which leads to state s belongs to; a delimiter belongs to none. */
  function FieldOf(s: State): Option<UrlField> {
    match s
    case ReqSchema => Some(UfSchema)
    case ReqServer => Some(UfHost)
    case ReqServerWithAt => Some(UfHost)
    case ReqPath => Some(UfPath)
    case ReqQueryString => Some(UfQuery)
    case ReqFragment => Some(UfFragment)
    case _ => None
  }

  /** The variables of the first pass. */
  datatype Cut = Cut(s: State, prev: Option<UrlField>, u: Fields, at: bool)

  function Longer(x: Slice): Slice {
    x.(len := x.len + 1)
  }

  /** The byte at i leads the first pass to state t. */
  function Enter(x: Cut, t: State, i: nat): (y: Cut)
    requires Within(x.u, i)
    ensures Within(y.u, i + 1)
  {
    match FieldOf(t)
    case None => x.(s := t)
    case Some(f) =>
      var slice := if x.prev == Some(f) && f in x.u then Longer(x.u[f]) else Slice(i, 1);
      Cut(t, Some(f), x.u[f := slice], x.at || t.ReqServerWithAt?)
  }

  function Start(connect: bool): State {
    if connect then ReqServerStart else ReqSpacesBeforeUrl
  }

  /** The first pass over buf; it stops in state Dead. */
  function FirstPass(connect: bool, buf: string): (x: Cut)
    ensures Within(x.u, |buf|) && UfPort !in x.u && UfUserinfo !in x.u
    ensures x.prev.Some? ==> x.prev.value in x.u
    decreases |buf|
  {
    if buf == "" then Cut(Start(connect), None, map[], false)
    else
      var n := |buf| - 1;
      var x := FirstPass(connect, buf[..n]);
      if x.s.Dead? then x else Enter(x, ParseUrlChar(x.s, buf[n]), n)
  }

  /** The state of the first pass over a request target of method m. */
  function PassState(m: Method, target: string): State {
    FirstPass(m.CONNECT?, target).s
  }

  lemma PassOn(m: Method, target: string, c: char)
    ensures var s := PassState(m, target);
            PassState(m, target + [c]) == if s.Dead? then Dead else ParseUrlChar(s, c)
  {
    hide ParseUrlChar;
    assert (target + [c])[..|target|] == target;
  }

  lemma PassStart(m: Method)
    ensures PassState(m, "") == if m.CONNECT? then ReqServerStart else ReqSpacesBeforeUrl
  {
  }

  // ---------------------------------------------------------------- the second pass

  datatype HostState =
    | HostDead | UserinfoStart | UserinfoPart | HostStart | V6Start | HostPart | V6Part | V6End | PortStart | PortPart

  predicate IsV6Char(ch: char) {
    IsHex(ch) || ch == ':' || ch == '.'
  }

  /** `http_parse_host_char`. */
  function ParseHostChar(s: HostState, ch: char): HostState {
    match s
    case UserinfoStart => if ch == '@' then HostStart else if IsUserinfoChar(ch) then UserinfoPart else HostDead
    case UserinfoPart => if ch == '@' then HostStart else if IsUserinfoChar(ch) then s else HostDead
    case HostStart => if ch == '[' then V6Start else if IsHostChar(ch) then HostPart else HostDead
    case HostPart => if IsHostChar(ch) then s else if ch == ':' then PortStart else HostDead
    case V6End => if ch == ':' then PortStart else HostDead
    case V6Part => if ch == ']' then V6End else if IsV6Char(ch) then s else HostDead
    case V6Start => if IsV6Char(ch) then V6Part else HostDead
    case PortPart => if IsNum(ch) then s else HostDead
    case PortStart => if IsNum(ch) then PortPart else HostDead
    case HostDead => HostDead
  }

  /** The variables of the second pass, and the fields it writes. */
  datatype HostCut = HostCut(s: HostState, host: Slice, port: Option<Slice>, userinfo: Option<Slice>)

  function Extend(x: Option<Slice>, going: bool, i: nat): Option<Slice> {
    if going && x.Some? then Some(Longer(x.value)) else Some(Slice(i, 1))
  }

  /** The byte at i leads the second pass to state t. */
  function EnterHost(x: HostCut, t: HostState, i: nat): (y: HostCut)
    ensures y.s == t
  {
    match t
    case HostPart => x.(s := t, host := if x.s.HostPart? then Longer(x.host) else Slice(i, x.host.len + 1))
    case V6Part => x.(s := t, host := if x.s.V6Part? then Longer(x.host) else Slice(i, x.host.len + 1))
    case PortPart => x.(s := t, port := Extend(x.port, x.s.PortPart?, i))
    case UserinfoPart => x.(s := t, userinfo := Extend(x.userinfo, x.s.UserinfoPart?, i))
    case _ => x.(s := t)
  }

  predicate Ends(x: Option<Slice>, n: nat) {
    x.Some? ==> x.value.off + x.value.len <= n
  }

  /** The loop of `http_parse_host` over the bytes off..hi; it stops in state HostDead. */
  function SecondPass(at: bool, buf: string, off: nat, hi: nat): (x: HostCut)
    requires off <= hi <= |buf|
    ensures x.host.off <= hi && x.host.len <= hi - off && Ends(x.port, hi) && Ends(x.userinfo, hi)
    ensures (x.s.PortPart? ==> x.port.Some?) && (x.s.UserinfoPart? ==> x.userinfo.Some?)
    decreases hi
  {
    if hi == off then HostCut(if at then UserinfoStart else HostStart, Slice(off, 0), None, None)
    else
      var x := SecondPass(at, buf, off, hi - 1);
      if x.s.HostDead? then x else EnterHost(x, ParseHostChar(x.s, buf[hi - 1]), hi - 1)
  }

  /** The states in which the host may end. */
  predicate HostMayEnd(s: HostState) {
    s.HostPart? || s.V6End? || s.PortPart?
  }

  // ---------------------------------------------------------------- the port

  function DigitPrefix(s: string): (k: nat)
    ensures k <= |s| && forall i | 0 <= i < k :: IsNum(s[i])
    ensures k < |s| ==> !IsNum(s[k])
    decreases |s|
  {
    if s == "" || !IsNum(s[0]) then 0
    else
      var k := DigitPrefix(s[1..]);
      assert forall i | 1 <= i < k + 1 :: s[i] == s[1..][i - 1];
      k + 1
  }

  const ULONG_MAX: nat := 0xffff_ffff_ffff_ffff

  predicate Sign(s: string) {
    s != "" && (s[0] == '+' || s[0] == '-')
  }

  /** `strtoul` in base 10, on text that does not go on past the buffer and starts with no white space,
      as no accepted URL has any. A value past 64 bits saturates, whatever its sign; another one behind
      a '-' is negated modulo 2^64. */
  function Strtoul(s: string): nat {
    var t := if Sign(s) then s[1..] else s;
    var v := Decimal(t[..DigitPrefix(t)]);
    if v > ULONG_MAX then ULONG_MAX else if Sign(s) && s[0] == '-' && v > 0 then ULONG_MAX + 1 - v else v
  }

  // ---------------------------------------------------------------- the whole function

  datatype UrlInfo = UrlInfo(fields: Fields, port: nat)

  const MAX_PORT: nat := 0xffff

  /** The fields after the second pass, which marks no host that was not there before. */
  function Merge(u: Fields, y: HostCut): Fields {
    var v := if UfHost in u then u[UfHost := y.host] else u;
    var v1 := if y.port.Some? then v[UfPort := y.port.value] else v;
    if y.userinfo.Some? then v1[UfUserinfo := y.userinfo.value] else v1
  }

  /** The checks after both passes, and the conversion of the port. */
  function Finish(connect: bool, buf: string, u: Fields): Option<UrlInfo>
    requires UfPort in u ==> u[UfPort].off <= |buf|
  {
    if connect && u.Keys != {UfHost, UfPort} then None
    else if UfPort !in u then Some(UrlInfo(u, 0))
    else
      var v := Strtoul(buf[u[UfPort].off..]);
      if v > MAX_PORT then None else Some(UrlInfo(u, v))
  }

  /** What `http_parser_parse_url` means, with offsets and lengths of any size; None is its return value
      1. */
  function ParseUrl(connect: bool, buf: string): Option<UrlInfo> {
    var x := FirstPass(connect, buf);
    if x.s.Dead? then None
    else if UfSchema !in x.u && UfHost !in x.u then Finish(connect, buf, x.u)
    else
      var h := if UfHost in x.u then x.u[UfHost] else Slice(0, 0);
      var y := SecondPass(x.at, buf, h.off, h.off + h.len);
      if !HostMayEnd(y.s) then None else Finish(connect, buf, Merge(x.u, y))
  }

  // ---------------------------------------------------------------- as the struct holds it

  /** What a `uint16_t` keeps of an offset and of a length. */
  function Narrow(x: Slice): (y: Slice)
    ensures y.off <= x.off && y.len <= x.len && y.off < 0x1_0000 && y.len < 0x1_0000
  {
    Slice(x.off % 0x1_0000, x.len % 0x1_0000)
  }

  function NarrowFields(u: Fields): (v: Fields)
    ensures v.Keys == u.Keys && forall f <- u :: v[f] == Narrow(u[f])
  {
    map f | f in u :: Narrow(u[f])
  }

  function NarrowOption(x: Option<Slice>): Option<Slice> {
    if x.Some? then Some(Narrow(x.value)) else None
  }

  function NarrowHost(y: HostCut): HostCut {
    HostCut(y.s, Narrow(y.host), NarrowOption(y.port), NarrowOption(y.userinfo))
  }

  /** The URLs that make the second pass read what the host field held before: those with a schema and
      no host. */
  predicate ReadsStale(connect: bool, buf: string) {
    var x := FirstPass(connect, buf);
    !x.s.Dead? && UfSchema in x.u && UfHost !in x.u
  }

  /** What C asks of a host field that is read: it lies inside the buffer. */
  predicate StaleFits(connect: bool, buf: string, stale: Slice) {
    ReadsStale(connect, buf) ==> stale.off + stale.len <= |buf|
  }

  /** `http_parser_parse_url` as the C code has it: `field_data` holds 16 bits of every offset and length,
      and is not cleared. */
  function ParseUrlFrom(connect: bool, buf: string, stale: Slice): Option<UrlInfo>
    requires StaleFits(connect, buf, stale)
  {
    var x := FirstPass(connect, buf);
    var u := NarrowFields(x.u);
    if x.s.Dead? then None
    else if UfSchema !in u && UfHost !in u then Finish(connect, buf, u)
    else
      var h := if UfHost in u then u[UfHost] else stale;
      var y := SecondPass(x.at, buf, h.off, h.off + h.len);
      if !HostMayEnd(y.s) then None else Finish(connect, buf, Merge(u, NarrowHost(y)))
  }

  /** Whether a stale host field is read, and can be read as a host. */
  predicate StaleHostCounts(connect: bool, buf: string, stale: Slice)
    requires StaleFits(connect, buf, stale)
  {
    ReadsStale(connect, buf) &&
    var x := FirstPass(connect, buf);
    var y := SecondPass(x.at, buf, stale.off, stale.off + stale.len);
    HostMayEnd(y.s) && Finish(connect, buf, Merge(NarrowFields(x.u), NarrowHost(y))).Some?
  }

  /** A struct that is not zeroed is as good as a zeroed one, for every URL, if and only if the length of
      its host field is zero. */
  lemma StaleHost(stale: Slice)
    ensures (forall connect, buf | StaleFits(connect, buf, stale) ::
               ParseUrlFrom(connect, buf, stale) == ParseUrlFrom(connect, buf, Slice(0, 0)))
            <==> stale.len == 0
  {
    hide ParseUrlFrom, StaleHostCounts, StaleFits;
    forall connect, buf ensures StaleFits(connect, buf, Slice(0, 0)) {
      NothingFits(connect, buf);
    }
    if stale.len == 0 {
      forall connect, buf | StaleFits(connect, buf, stale)
        ensures ParseUrlFrom(connect, buf, stale) == ParseUrlFrom(connect, buf, Slice(0, 0))
      {
        StaleHostOf(connect, buf, stale);
      }
    } else {
      LettersCount(stale);
      StaleHostOf(false, Letters(stale.off + stale.len), stale);
    }
  }

  lemma NothingFits(connect: bool, buf: string)
    ensures StaleFits(connect, buf, Slice(0, 0))
  {
  }

  /** One URL: the stale host field makes a difference if and only if it counts, and then it makes the URL
      accepted, which is to be refused. */
  lemma StaleHostOf(connect: bool, buf: string, stale: Slice)
    requires StaleFits(connect, buf, stale)
    ensures StaleFits(connect, buf, Slice(0, 0))
    ensures ParseUrlFrom(connect, buf, stale) == ParseUrlFrom(connect, buf, Slice(0, 0))
            <==> !StaleHostCounts(connect, buf, stale)
    ensures StaleHostCounts(connect, buf, stale) ==>
            stale.len > 0 && ParseUrlFrom(connect, buf, Slice(0, 0)).None?
  {
    hide FirstPass, SecondPass, HostMayEnd, Finish, Merge, NarrowFields, NarrowHost;
    if ReadsStale(connect, buf) {
      var at := FirstPass(connect, buf).at;
      NoHostAtAll(at, buf, 0);
      NoHostAtAll(at, buf, stale.off);
    }
  }

  lemma NoHostAtAll(at: bool, buf: string, off: nat)
    ensures off <= |buf| ==> !HostMayEnd(SecondPass(at, buf, off, off).s)
  {
  }

  /** A schema alone, which a stale field inside it takes for a host. */
  function Letters(n: nat): (s: string)
    ensures |s| == n
  {
    seq(n, _ => 'a')
  }

  lemma {:induction false} LettersFirst(n: nat)
    requires n > 0
    ensures FirstPass(false, Letters(n)) == Cut(ReqSchema, Some(UfSchema), map[UfSchema := Slice(0, n)], false)
  {
    var s := Letters(n);
    assert s[..n - 1] == Letters(n - 1);
    if n > 1 { LettersFirst(n - 1); }
  }

  lemma {:induction false} LettersSecond(n: nat, off: nat, hi: nat)
    requires off < hi <= n
    ensures SecondPass(false, Letters(n), off, hi) == HostCut(HostPart, Slice(off, hi - off), None, None)
    decreases hi
  {
    if off < hi - 1 { LettersSecond(n, off, hi - 1); }
  }

  lemma LettersCount(stale: Slice)
    requires stale.len > 0
    ensures var buf := Letters(stale.off + stale.len);
            StaleFits(false, buf, stale) && StaleHostCounts(false, buf, stale)
  {
    hide FirstPass, SecondPass, Letters;
    var n := stale.off + stale.len;
    LettersFirst(n);
    LettersSecond(n, stale.off, n);
  }

  /** On a zeroed struct, 16 bits are enough for every URL of n bytes if and only if n has 16 bits: the
      path "/aaa..." of a longer one is reported with its length modulo 65536. */
  lemma SixteenBits(n: nat)
    ensures (forall connect, buf | |buf| == n :: ParseUrlFrom(connect, buf, Slice(0, 0)) == ParseUrl(connect, buf))
            <==> n < 65536
  {
    hide ParseUrlFrom, ParseUrl;
    if n < 0x1_0000 {
      forall connect, buf | |buf| == n ensures ParseUrlFrom(connect, buf, Slice(0, 0)) == ParseUrl(connect, buf) {
        NarrowEnough(connect, buf);
      }
    } else {
      PathWraps(n);
      assert map[UfPath := Slice(0, n)][UfPath] != map[UfPath := Slice(0, n % 65536)][UfPath];
    }
  }

  lemma NarrowEnough(connect: bool, buf: string)
    requires |buf| < 0x1_0000
    ensures ParseUrlFrom(connect, buf, Slice(0, 0)) == ParseUrl(connect, buf)
  {
    hide FirstPass, SecondPass, Finish, Merge, Narrow, HostMayEnd;
    var x := FirstPass(connect, buf);
    SmallFields(x.u, |buf|);
    var h := if UfHost in x.u then x.u[UfHost] else Slice(0, 0);
    var y := SecondPass(x.at, buf, h.off, h.off + h.len);
    SmallHost(y, |buf|);
  }

  lemma SmallFields(u: Fields, n: nat)
    requires Within(u, n) && n < 0x1_0000
    ensures NarrowFields(u) == u
  {
    forall f <- u ensures Narrow(u[f]) == u[f] {
      Small(u[f]);
    }
  }

  lemma Small(x: Slice)
    requires x.off < 0x1_0000 && x.len < 0x1_0000
    ensures Narrow(x) == x
  {
  }

  lemma SmallHost(y: HostCut, n: nat)
    requires y.host.off <= n && y.host.len <= n && Ends(y.port, n) && Ends(y.userinfo, n) && n < 0x1_0000
    ensures NarrowHost(y) == y
  {
  }

  function PathText(n: nat): string {
    seq(n, i requires 0 <= i < n => if i == 0 then '/' else 'a')
  }

  lemma {:induction false} PathPass(n: nat)
    requires n > 0
    ensures FirstPass(false, PathText(n)) == Cut(ReqPath, Some(UfPath), map[UfPath := Slice(0, n)], false)
  {
    var s := PathText(n);
    assert s[..n - 1] == PathText(n - 1);
    if n > 1 { PathPass(n - 1); }
  }

  /** A path of n bytes is reported with the length n modulo 65536. */
  lemma PathWraps(n: nat)
    requires n > 0
    ensures |PathText(n)| == n && ParseUrl(false, PathText(n)) == Some(UrlInfo(map[UfPath := Slice(0, n)], 0))
    ensures ParseUrlFrom(false, PathText(n), Slice(0, 0)) == Some(UrlInfo(map[UfPath := Slice(0, n % 65536)], 0))
  {
    hide FirstPass, PathText;
    PathLength(n);
    PathPass(n);
    assert NarrowFields(map[UfPath := Slice(0, n)]) == map[UfPath := Slice(0, n % 65536)];
  }

  lemma PathLength(n: nat)
    ensures |PathText(n)| == n
  {
  }
}
