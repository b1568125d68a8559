/** URLs by their components: what is accepted, and that printing and parsing are inverse. */
module UrlRoundTrip {
  import opened Chars
  import opened Options
  import opened Urls
  import opened UrlGrammar
  import H = HostGrammar

  datatype HostName = Named(text: string) | Bracketed(text: string)

  /** An authority: the userinfo in front of an '@', the host, the port behind a ':'. */
  datatype Authority = Authority(userinfo: Option<string>, host: HostName, port: Option<string>)

  /** The components of a URL. The '#'s in front of a fragment may be several; a query of Some("") is a
      bare '?'. */
  datatype Parts = Parts(schema: Option<string>, authority: Option<Authority>, path: string, query: Option<string>,
                         marks: nat, fragment: string)

  function ShowHost(h: HostName): string {
    if h.Bracketed? then "[" + h.text + "]" else h.text
  }

  function BeforeHost(a: Authority): string {
    if a.userinfo.Some? then a.userinfo.value + "@" else ""
  }

  function ShowPort(p: Option<string>): string {
    if p.Some? then ":" + p.value else ""
  }

  function ShowAuthority(a: Authority): string {
    BeforeHost(a) + ShowHost(a.host) + ShowPort(a.port)
  }

  function BeforeAuthority(p: Parts): string {
    if p.schema.Some? then p.schema.value + "://" else ""
  }

  function BeforePath(p: Parts): string {
    BeforeAuthority(p) + if p.authority.Some? then ShowAuthority(p.authority.value) else ""
  }

  function BeforeQuery(p: Parts): string {
    BeforePath(p) + p.path
  }

  function BeforeFragment(p: Parts): string {
    BeforeQuery(p) + QueryText(p.query) + Marks(p.marks)
  }

  function PrintUrl(p: Parts): string {
    BeforeFragment(p) + p.fragment
  }

  predicate AuthorityOk(a: Authority) {
    && (a.userinfo.Some? ==> forall i | 0 <= i < |a.userinfo.value| :: IsUserinfoChar(a.userinfo.value[i]))
    && a.host.text != ""
    && (forall i | 0 <= i < |a.host.text| ::
          if a.host.Bracketed? then IsV6Char(a.host.text[i]) else IsHostChar(a.host.text[i]))
    && (a.port.Some? ==> a.port.value != "" && AllNum(a.port.value))
  }

  /** A URL that both passes take. A schema comes with an authority; without either, the URL is empty or
      a path that starts with '/' or '*'. For CONNECT there is no schema. */
  predicate Shaped(connect: bool, p: Parts) {
    && (p.schema.Some? ==> !connect && p.authority.Some? && p.schema.value != ""
                           && forall i | 0 <= i < |p.schema.value| :: IsAlpha(p.schema.value[i]))
    && (p.authority.Some? ==> (p.schema.Some? || connect) && AuthorityOk(p.authority.value))
    && (p.path != "" ==> p.path[0] == '/' || (p.path[0] == '*' && !connect && p.schema.None?))
    && (forall i | 0 <= i < |p.path| :: IsUrlChar(p.path[i]))
    && (p.query.Some? ==> QueryOk(p.query.value) && (p.path != "" || p.schema.Some? || connect))
    && (p.marks > 0 ==> p.path != "" || p.query.Some?)
    && FragmentOk(p.fragment) && (p.fragment != "" ==> p.marks > 0)
  }

  /** What is checked after the passes: CONNECT takes a host and a port and nothing else that makes a
      field, and a port is at most 65535. */
  predicate Limits(connect: bool, p: Parts)
    requires Shaped(connect, p)
  {
    && (connect ==>
          && p.authority.Some? && p.authority.value.port.Some? && p.path == "" && p.fragment == ""
          && (p.query.Some? ==> p.query.value == "")
          && (p.authority.value.userinfo.Some? ==> p.authority.value.userinfo.value == ""))
    && (p.authority.Some? && p.authority.value.port.Some? ==> Decimal(p.authority.value.port.value) <= MAX_PORT)
  }

  predicate UrlOk(connect: bool, p: Parts) {
    Shaped(connect, p) && Limits(connect, p)
  }

  /** A component is a field when it is not empty. */
  function Stretch(before: string, s: string): Option<Slice> {
    if s == "" then None else Some(Slice(|before|, |s|))
  }

  /** Where the components lie in the printed URL. */
  function Lies(p: Parts, f: UrlField): Option<Slice> {
    match f
    case UfSchema => if p.schema.Some? then Stretch("", p.schema.value) else None
    case UfUserinfo =>
      if p.authority.Some? && p.authority.value.userinfo.Some?
      then Stretch(BeforeAuthority(p), p.authority.value.userinfo.value) else None
    case UfHost =>
      if p.authority.Some?
      then Stretch(BeforeName(p, p.authority.value), p.authority.value.host.text) else None
    case UfPort =>
      if p.authority.Some? && p.authority.value.port.Some?
      then Stretch(BeforePort(p, p.authority.value), p.authority.value.port.value) else None
    case UfPath => Stretch(BeforePath(p), p.path)
    case UfQuery => if p.query.Some? then Stretch(BeforeQuery(p) + "?", p.query.value) else None
    case UfFragment => Stretch(BeforeFragment(p), p.fragment)
  }

  function BeforeName(p: Parts, a: Authority): string {
    BeforeAuthority(p) + BeforeHost(a) + if a.host.Bracketed? then "[" else ""
  }

  function BeforePort(p: Parts, a: Authority): string {
    BeforeAuthority(p) + BeforeHost(a) + ShowHost(a.host) + ":"
  }

  function FieldsOf(p: Parts): Fields {
    map f: UrlField | Lies(p, f).Some? :: Lies(p, f).value
  }

  function InfoOf(connect: bool, p: Parts): UrlInfo
    requires UrlOk(connect, p)
  {
    UrlInfo(FieldsOf(p),
            if p.authority.Some? && p.authority.value.port.Some? then Decimal(p.authority.value.port.value) else 0)
  }

  // ---------------------------------------------------------------- the two passes over a printed URL

  function Or(s: Option<string>): string {
    if s.Some? then s.value else ""
  }

  function HostTextOf(a: Authority): H.HostText {
    var b := a.host.Bracketed?;
    H.HostText(Or(a.userinfo), a.userinfo.Some?, b, a.host.text, b, a.port.Some?, Or(a.port))
  }

  function TextOf(p: Parts): Text {
    Text(Or(p.schema), if p.schema.Some? then 3 else 0,
         if p.authority.Some? then ShowAuthority(p.authority.value) else "", p.path, p.query, p.marks, p.fragment)
  }

  lemma AuthorityText(a: Authority)
    requires AuthorityOk(a)
    ensures var h := HostTextOf(a);
            && H.TextOk(a.userinfo.Some?, h) && H.Show(h) == ShowAuthority(a)
            && HostMayEnd(H.StateAfter(a.userinfo.Some?, h))
  {
    var h := HostTextOf(a);
    assert H.UpToName(h) + h.host + H.If(h.close, "]") == BeforeHost(a) + ShowHost(a.host);
    assert H.If(h.colon, ":") + h.port == ShowPort(a.port);
    assert H.Show(h) == (H.UpToName(h) + h.host + H.If(h.close, "]")) + (H.If(h.colon, ":") + h.port);
  }

  lemma UserinfoIsServer(c: char)
    ensures IsUserinfoChar(c) || IsHostChar(c) || IsV6Char(c) || IsNum(c) ==> IsServerChar(c) && c != '@'
  {
  }

  lemma AuthorityIsServer(a: Authority)
    requires AuthorityOk(a)
    ensures var s := ShowAuthority(a); ServerOk(s) && s != "" && ('@' in s <==> a.userinfo.Some?)
  {
    var s := ShowAuthority(a);
    var n := |BeforeHost(a)|;
    forall i | 0 <= i < |s| ensures IsServerChar(s[i]) && (s[i] == '@' <==> a.userinfo.Some? && i == n - 1) {
      if i < n { BeforeHostChar(a, i); } else { AfterHostChar(a, i); }
    }
    if a.userinfo.Some? { assert s[n - 1] == '@'; }
  }

  lemma BeforeHostChar(a: Authority, i: nat)
    requires AuthorityOk(a) && i < |BeforeHost(a)|
    ensures var c := ShowAuthority(a)[i]; IsServerChar(c) && (c == '@' <==> i == |BeforeHost(a)| - 1)
  {
    UserinfoIsServer(ShowAuthority(a)[i]);
    assert IsServerChar('@');
    hide IsServerChar, IsUserinfoChar, IsV6Char, IsHostChar;
    if i < |BeforeHost(a)| - 1 { assert ShowAuthority(a)[i] == a.userinfo.value[i]; }
  }

  lemma AfterHostChar(a: Authority, i: nat)
    requires AuthorityOk(a) && |BeforeHost(a)| <= i < |ShowAuthority(a)|
    ensures var c := ShowAuthority(a)[i]; IsServerChar(c) && c != '@'
  {
    UserinfoIsServer(ShowAuthority(a)[i]);
    assert IsServerChar('[') && IsServerChar(']') && IsServerChar(':');
    hide IsServerChar, IsUserinfoChar, IsV6Char, IsHostChar, IsNum;
    var j := i - |BeforeHost(a)|;
    assert ShowAuthority(a)[i] == (ShowHost(a.host) + ShowPort(a.port))[j];
    if j < |ShowHost(a.host)| {
      HostChar(a.host, j);
    } else if j > |ShowHost(a.host)| {
      assert ShowAuthority(a)[i] == a.port.value[j - |ShowHost(a.host)| - 1];
    }
  }

  lemma HostChar(h: HostName, j: nat)
    requires j < |ShowHost(h)|
    ensures var c := ShowHost(h)[j];
            (h.Bracketed? && (c == '[' || c == ']')) || exists k | 0 <= k < |h.text| :: c == h.text[k]
  {
    if h.Bracketed? && 0 < j < |h.text| + 1 { assert ShowHost(h)[j] == h.text[j - 1]; }
    else if h.Named? { assert ShowHost(h)[j] == h.text[j]; }
  }

  lemma TextShaped(connect: bool, p: Parts)
    requires Shaped(connect, p)
    ensures TextOk(connect, TextOf(p))
  {
    if p.authority.Some? { AuthorityIsServer(p.authority.value); }
    hide AuthorityOk, ShowAuthority;
  }

  lemma PrintIsShow(p: Parts)
    ensures var x := TextOf(p);
            UpToHost(x) == BeforeAuthority(p) && UpToPath(x) == BeforeQuery(p) && Show(x) == PrintUrl(p)
  {
    hide ShowAuthority;
    assert "://"[..0] == "" && "://"[..3] == "://";
  }

  /** The fields of a URL without an authority. */
  lemma FieldsWithoutHost(connect: bool, p: Parts)
    requires Shaped(connect, p) && p.authority.None?
    ensures FieldsOf(p) == Pieces(TextOf(p))
  {
    hide UpToHost, UpToPath, Show;
    PrintIsShow(p);
    var x := TextOf(p);
    forall f ensures Lies(p, f) == Piece(x, f) {
    }
  }

  /** The fields of a URL with an authority: those of the first pass, and those of the second. */
  lemma FieldsWithHost(connect: bool, p: Parts)
    requires Shaped(connect, p) && p.authority.Some?
    ensures var a := p.authority.value; var y := H.CutOf(a.userinfo.Some?, |BeforeAuthority(p)|, HostTextOf(a));
            FieldsOf(p) == Merge(Pieces(TextOf(p)), y)
  {
    hide HostTextOf, H.CutOf, BeforeAuthority, Lies, Piece, Shaped;
    var a := p.authority.value;
    var x := TextOf(p);
    var y := H.CutOf(a.userinfo.Some?, |BeforeAuthority(p)|, HostTextOf(a));
    HostTaken(connect, p, a);
    HostFields(p, a);
    OtherFields(p);
    forall f ensures f in FieldsOf(p) <==> f in Merge(Pieces(x), y) {
    }
  }

  lemma HostTaken(connect: bool, p: Parts, a: Authority)
    requires Shaped(connect, p) && p.authority == Some(a)
    ensures a.host.text != "" && Piece(TextOf(p), UfHost).Some?
  {
  }

  lemma OtherFields(p: Parts)
    ensures var x := TextOf(p);
            && Piece(x, UfPort).None? && Piece(x, UfUserinfo).None?
            && forall f | f != UfHost && f != UfPort && f != UfUserinfo :: Lies(p, f) == Piece(x, f)
  {
    hide UpToHost, UpToPath, Show;
    PrintIsShow(p);
    var x := TextOf(p);
    forall f | f != UfHost && f != UfPort && f != UfUserinfo ensures Lies(p, f) == Piece(x, f) {
    }
  }

  lemma HostFields(p: Parts, a: Authority)
    requires p.authority == Some(a) && a.host.text != ""
    ensures var y := H.CutOf(a.userinfo.Some?, |BeforeAuthority(p)|, HostTextOf(a));
            && Lies(p, UfHost) == Some(y.host) && Lies(p, UfPort) == y.port && Lies(p, UfUserinfo) == y.userinfo
  {
  }

  function AfterAuthority(p: Parts): string {
    p.path + QueryText(p.query) + Marks(p.marks) + p.fragment
  }

  lemma PrintTail(p: Parts)
    ensures PrintUrl(p) == BeforePath(p) + AfterAuthority(p)
  {
    hide BeforePath;
    var b, q, m := BeforePath(p), QueryText(p.query), Marks(p.marks);
    assert b + (p.path + q + m + p.fragment) == b + p.path + q + m + p.fragment;
  }

  lemma TailStart(connect: bool, p: Parts)
    requires Shaped(connect, p) && p.authority.Some? && AfterAuthority(p) != ""
    ensures AfterAuthority(p)[0] == '/' || AfterAuthority(p)[0] == '?'
  {
    if p.path != "" { assert AfterAuthority(p)[0] == p.path[0]; }
    else if p.query.Some? { assert AfterAuthority(p)[0] == QueryText(p.query)[0]; }
  }

  /** The port is the decimal value of its slice: the digits end where the slice ends. */
  lemma PortValue(connect: bool, p: Parts, port: string)
    requires Shaped(connect, p) && p.authority.Some? && p.authority.value.port == Some(port)
    ensures var s := FieldsOf(p); UfPort in s && s[UfPort].off + |port| <= |PrintUrl(p)|
    ensures Strtoul(PrintUrl(p)[FieldsOf(p)[UfPort].off..])
            == if Decimal(port) > ULONG_MAX then ULONG_MAX else Decimal(port)
  {
    hide BeforePath, BeforePort, AfterAuthority, PrintUrl, Strtoul;
    var a := p.authority.value;
    var before, tail := BeforePort(p, a), AfterAuthority(p);
    PortField(connect, p, a, port);
    PortIsLast(p, a, port);
    PrintTail(p);
    if tail != "" { TailStart(connect, p); }
    hide FieldsOf, Shaped;
    NumberEnds(port, tail);
    assert PrintUrl(p) == before + (port + tail);
    assert PrintUrl(p)[|before|..] == port + tail;
  }

  lemma PortField(connect: bool, p: Parts, a: Authority, port: string)
    requires Shaped(connect, p) && p.authority == Some(a) && a.port == Some(port)
    ensures UfPort in FieldsOf(p) && FieldsOf(p)[UfPort] == Slice(|BeforePort(p, a)|, |port|)
    ensures AllNum(port) && port != ""
  {
    hide BeforePort;
    assert Lies(p, UfPort) == Some(Slice(|BeforePort(p, a)|, |port|));
  }

  lemma PortIsLast(p: Parts, a: Authority, port: string)
    requires p.authority == Some(a) && a.port == Some(port)
    ensures BeforePath(p) == BeforePort(p, a) + port
  {
    var x, h := BeforeAuthority(p), BeforeHost(a) + ShowHost(a.host);
    hide BeforeAuthority, ShowHost, BeforeHost;
    assert x + (h + (":" + port)) == x + h + ":" + port;
    assert BeforePort(p, a) == x + h + ":";
  }

  lemma {:induction false} DigitsEnd(port: string, tail: string)
    requires AllNum(port) && (tail != "" ==> !IsNum(tail[0]))
    ensures DigitPrefix(port + tail) == |port|
    decreases |port|
  {
    if port == "" {
      assert port + tail == tail;
    } else {
      DigitsEnd(port[1..], tail);
      assert (port + tail)[1..] == port[1..] + tail;
    }
  }

  /** `strtoul` at the start of a field of digits. */
  lemma NumberEnds(port: string, tail: string)
    requires port != "" && AllNum(port) && (tail != "" ==> !IsNum(tail[0]))
    ensures Strtoul(port + tail) == if Decimal(port) > ULONG_MAX then ULONG_MAX else Decimal(port)
  {
    hide DigitPrefix, Decimal;
    DigitsEnd(port, tail);
    assert (port + tail)[0] == port[0] && (port + tail)[..|port|] == port;
  }

  lemma FieldKeys(p: Parts)
    ensures forall f :: f in FieldsOf(p).Keys <==> Lies(p, f).Some?
  {
  }

  /** The fields that CONNECT is held to. */
  lemma ConnectFields(p: Parts)
    requires Shaped(true, p)
    ensures FieldsOf(p).Keys == {UfHost, UfPort} <==>
            && p.authority.Some? && p.authority.value.port.Some? && p.path == "" && p.fragment == ""
            && (p.query.Some? ==> p.query.value == "")
            && (p.authority.value.userinfo.Some? ==> p.authority.value.userinfo.value == "")
  {
    hide FieldsOf, Shaped;
    var keys := FieldsOf(p).Keys;
    FieldKeys(p);
    if keys == {UfHost, UfPort} {
      assert UfPort in keys && UfPath !in keys && UfQuery !in keys && UfFragment !in keys && UfUserinfo !in keys;
    } else if p.authority.Some? {
      AuthorityHasHost(p);
    }
  }

  lemma AuthorityHasHost(p: Parts)
    requires Shaped(true, p) && p.authority.Some?
    ensures p.authority.value.host.text != "" && (p.authority.value.port.Some? ==> p.authority.value.port.value != "")
    ensures p.schema.None?
  {
  }

  lemma FirstPassOver(connect: bool, p: Parts)
    requires Shaped(connect, p)
    ensures FirstPass(connect, PrintUrl(p)) == CutOf(connect, TextOf(p))
    ensures !StateAfter(connect, TextOf(p)).Dead?
  {
    TextShaped(connect, p);
    PrintIsShow(p);
    FirstPassOf(connect, TextOf(p));
    Alive(connect, TextOf(p));
  }

  lemma PassesWithoutHost(connect: bool, p: Parts)
    requires Shaped(connect, p) && p.authority.None?
    ensures UfPort !in FieldsOf(p)
    ensures ParseUrl(connect, PrintUrl(p)) == Finish(connect, PrintUrl(p), FieldsOf(p))
  {
    FirstPassOver(connect, p);
    FieldsWithoutHost(connect, p);
    NoPort(p);
    NoHostPieces(TextOf(p));
    hide FieldsOf, Pieces, Shaped, PrintUrl, Finish, StateAfter;
  }

  lemma SecondPassOver(a: Authority, buf: string, off: nat)
    requires AuthorityOk(a)
    requires var s := ShowAuthority(a); off + |s| <= |buf| && buf[off..off + |s|] == s
    ensures var y := SecondPass(a.userinfo.Some?, buf, off, off + |ShowAuthority(a)|);
            y == H.CutOf(a.userinfo.Some?, off, HostTextOf(a)) && HostMayEnd(y.s)
    ensures ('@' in ShowAuthority(a)) == a.userinfo.Some?
  {
    hide SecondPass, ShowAuthority, AuthorityOk, HostTextOf, H.CutOf, H.StateAfter, H.TextOk, H.Show;
    AuthorityText(a);
    AuthorityIsServer(a);
    H.CutState(a.userinfo.Some?, off, HostTextOf(a));
    H.SecondPassOf(a.userinfo.Some?, buf, off, HostTextOf(a));
  }

  lemma ShapedAuthority(connect: bool, p: Parts)
    requires Shaped(connect, p) && p.authority.Some?
    ensures AuthorityOk(p.authority.value)
  {
  }

  lemma PassesWithHost(connect: bool, p: Parts)
    requires Shaped(connect, p) && p.authority.Some?
    ensures UfPort in FieldsOf(p) ==> FieldsOf(p)[UfPort].off <= |PrintUrl(p)|
    ensures ParseUrl(connect, PrintUrl(p)) == Finish(connect, PrintUrl(p), FieldsOf(p))
  {
    hide FieldsOf, Pieces, Shaped, PrintUrl, Finish, Merge, SecondPass, FirstPass, ShowAuthority, StateAfter, Strtoul,
         AuthorityOk, BeforeAuthority;
    var a := p.authority.value;
    ShapedAuthority(connect, p);
    FirstPassOver(connect, p);
    HostPiece(connect, p);
    SecondPassOver(a, PrintUrl(p), |BeforeAuthority(p)|);
    FieldsWithHost(connect, p);
    if a.port.Some? { PortValue(connect, p, a.port.value); } else { NoPort(p); }
  }

  lemma NoPort(p: Parts)
    requires p.authority.Some? ==> p.authority.value.port.None?
    ensures UfPort !in FieldsOf(p)
  {
  }

  lemma NoHostPieces(x: Text)
    requires x.sep <= 3 && x.schema == "" && x.auth == ""
    ensures UfSchema !in Pieces(x) && UfHost !in Pieces(x) && UfPort !in Pieces(x)
  {
  }

  lemma HostPiece(connect: bool, p: Parts)
    requires Shaped(connect, p) && p.authority.Some?
    ensures var u := Pieces(TextOf(p)); var s := ShowAuthority(p.authority.value); var off := |BeforeAuthority(p)|;
            && UfHost in u && u[UfHost] == Slice(off, |s|)
            && off + |s| <= |PrintUrl(p)| && PrintUrl(p)[off..off + |s|] == s
  {
    hide ShowAuthority, AuthorityOk, AfterAuthority, BeforeAuthority, PrintUrl, Shaped, UpToHost, UpToPath,
         UrlGrammar.Show;
    ShapedAuthority(connect, p);
    AuthorityIsServer(p.authority.value);
    PrintIsShow(p);
    PrintTail(p);
    var x := TextOf(p);
    assert Piece(x, UfHost) == Some(Slice(|BeforeAuthority(p)|, |x.auth|));
    assert PrintUrl(p) == BeforeAuthority(p) + (x.auth + AfterAuthority(p));
  }

  /** What parsing the URL of some components gives: the components' places, unless a limit is passed. */
  lemma ParsedParts(connect: bool, p: Parts)
    requires Shaped(connect, p)
    ensures ParseUrl(connect, PrintUrl(p)) == if Limits(connect, p) then Some(InfoOf(connect, p)) else None
  {
    if p.authority.None? { PassesWithoutHost(connect, p); } else { PassesWithHost(connect, p); }
    if connect { ConnectFields(p); }
    if p.authority.Some? && p.authority.value.port.Some? { PortValue(connect, p, p.authority.value.port.value); }
    else { NoPort(p); }
    hide FieldsOf, Shaped, PrintUrl, ParseUrl, Strtoul;
  }

  // ---------------------------------------------------------------- the components of what is accepted

  function AuthorityOf(h: H.HostText): Authority {
    Authority(if h.at then Some(h.userinfo) else None, if h.open then Bracketed(h.host) else Named(h.host),
              if h.colon then Some(h.port) else None)
  }

  lemma AuthorityBack(found: bool, h: H.HostText)
    requires H.TextOk(found, h) && HostMayEnd(H.StateAfter(found, h))
    ensures var a := AuthorityOf(h); AuthorityOk(a) && HostTextOf(a) == h && ShowAuthority(a) == H.Show(h)
  {
    var a := AuthorityOf(h);
    assert HostTextOf(a) == h;
    assert AuthorityOk(a) by { hide IsUserinfoChar, IsV6Char, IsHostChar; }
    AuthorityText(a);
    hide AuthorityOk, ShowAuthority, H.Show;
  }

  function PartsOf(x: Text, a: Option<Authority>): Parts {
    Parts(if x.schema == "" then None else Some(x.schema), a, x.path, x.query, x.marks, x.fragment)
  }

  lemma PartsBack(connect: bool, x: Text, a: Option<Authority>)
    requires TextOk(connect, x)
    requires if x.auth == "" then a.None? && x.schema == ""
             else a.Some? && AuthorityOk(a.value) && ShowAuthority(a.value) == x.auth
    ensures Shaped(connect, PartsOf(x, a)) && TextOf(PartsOf(x, a)) == x
  {
    hide AuthorityOk, ShowAuthority, ServerOk, QueryOk, FragmentOk, IsUrlChar;
  }

  /** A schema without an authority is refused. */
  lemma SchemaNeedsHost(connect: bool, buf: string, x: Text)
    requires TextOk(connect, x) && FirstPass(connect, buf) == CutOf(connect, x) && x.schema != "" && x.auth == ""
    ensures ParseUrl(connect, buf).None?
  {
    assert Piece(x, UfHost).None?;
    assert UfHost !in Pieces(x) && UfSchema in Pieces(x);
    hide Pieces, FirstPass;
  }

  lemma AuthSlice(x: Text)
    requires x.sep <= 3
    ensures var s := UrlGrammar.Show(x); var off := |UpToHost(x)|;
            off + |x.auth| <= |s| && s[off..off + |x.auth|] == x.auth
  {
    hide UpToHost;
    var tail := x.path + QueryText(x.query) + Marks(x.marks) + x.fragment;
    assert UrlGrammar.Show(x) == UpToHost(x) + (x.auth + tail);
  }

  lemma AuthPiece(x: Text)
    requires x.sep <= 3 && x.auth != ""
    ensures UfHost in Pieces(x) && Pieces(x)[UfHost] == Slice(|UpToHost(x)|, |x.auth|)
  {
    assert Piece(x, UfHost) == Some(Slice(|UpToHost(x)|, |x.auth|));
  }

  /** The host field of an accepted URL ends the second pass well. */
  lemma HostEnds(connect: bool, buf: string, x: Text)
    requires x.sep <= 3 && UrlGrammar.Show(x) == buf && FirstPass(connect, buf) == CutOf(connect, x)
    requires x.auth != "" && ParseUrl(connect, buf).Some?
    ensures var off := |UpToHost(x)|; var hi := off + |x.auth|;
            hi <= |buf| && buf[off..hi] == x.auth && HostMayEnd(SecondPass('@' in x.auth, buf, off, hi).s)
  {
    hide Pieces, FirstPass, SecondPass, UpToHost, UrlGrammar.Show, Finish, StateAfter, LastField;
    AuthSlice(x);
    AuthPiece(x);
  }

  /** The components that an accepted text stands for. */
  lemma TextParts(connect: bool, buf: string, x: Text) returns (p: Parts)
    requires TextOk(connect, x) && UrlGrammar.Show(x) == buf && FirstPass(connect, buf) == CutOf(connect, x)
    requires ParseUrl(connect, buf).Some?
    ensures Shaped(connect, p) && TextOf(p) == x
  {
    hide ParseUrl, FirstPass, SecondPass, Shaped, UrlGrammar.Show, AuthorityOk, ShowAuthority, Pieces, ServerOk,
         QueryOk, FragmentOk;
    var a: Option<Authority> := None;
    if x.auth == "" {
      if x.schema != "" { SchemaNeedsHost(connect, buf, x); }
    } else {
      HostEnds(connect, buf, x);
      var authority := TextAuthority(buf, x);
      a := Some(authority);
    }
    PartsBack(connect, x, a);
    p := PartsOf(x, a);
  }

  lemma TextAuthority(buf: string, x: Text) returns (a: Authority)
    requires x.sep <= 3
    requires var off := |UpToHost(x)|; var hi := off + |x.auth|;
             hi <= |buf| && buf[off..hi] == x.auth && HostMayEnd(SecondPass('@' in x.auth, buf, off, hi).s)
    ensures AuthorityOk(a) && ShowAuthority(a) == x.auth
  {
    hide UpToHost, SecondPass, AuthorityOk, ShowAuthority, H.Show, H.TextOk;
    var found, off := '@' in x.auth, |UpToHost(x)|;
    var h := H.SecondPassReads(found, buf, off, off + |x.auth|);
    H.CutState(found, off, h);
    AuthorityBack(found, h);
    a := AuthorityOf(h);
  }

  /** Every accepted URL is the print of some components, and its fields are where they lie. */
  lemma AcceptedParts(connect: bool, buf: string) returns (p: Parts)
    requires ParseUrl(connect, buf).Some?
    ensures UrlOk(connect, p) && PrintUrl(p) == buf && ParseUrl(connect, buf) == Some(InfoOf(connect, p))
  {
    assert !FirstPass(connect, buf).s.Dead?;
    hide ParseUrl, FirstPass, TextOk, PrintUrl, Shaped, Limits, UrlGrammar.Show, FieldsOf, TextOf;
    var x := FirstPassReads(connect, buf);
    p := TextParts(connect, buf, x);
    PrintIsShow(p);
    ParsedParts(connect, p);
  }

  /** Print then parse: the fields are exactly the components, and the port is the port's value. */
  lemma PrintParse(connect: bool, p: Parts)
    requires UrlOk(connect, p)
    ensures ParseUrl(connect, PrintUrl(p)) == Some(InfoOf(connect, p))
  {
    ParsedParts(connect, p);
  }

  /** Exactly the printed URLs are accepted, each with the places of its components. */
  lemma AcceptsExactly(connect: bool, buf: string, info: UrlInfo)
    ensures ParseUrl(connect, buf) == Some(info) <==>
            exists p: Parts :: UrlOk(connect, p) && PrintUrl(p) == buf && InfoOf(connect, p) == info
  {
    hide ParseUrl, PrintUrl, UrlOk, InfoOf;
    if ParseUrl(connect, buf) == Some(info) {
      var p := AcceptedParts(connect, buf);
      assert UrlOk(connect, p) && PrintUrl(p) == buf && InfoOf(connect, p) == info;
    }
    forall p: Parts | UrlOk(connect, p) && PrintUrl(p) == buf && InfoOf(connect, p) == info
      ensures ParseUrl(connect, buf) == Some(info)
    {
      PrintParse(connect, p);
    }
  }

  // ---------------------------------------------------------------- the layout of the fields

  /** The order of the fields in a URL. */
  function Rank(f: UrlField): nat {
    match f
    case UfSchema => 0 case UfUserinfo => 1 case UfHost => 2 case UfPort => 3
    case UfPath => 4 case UfQuery => 5 case UfFragment => 6
  }

  /** Where the place of a field begins and ends, whether it is set or not. */
  function Begins(p: Parts, f: UrlField): nat {
    match f
    case UfSchema => 0
    case UfUserinfo => |BeforeAuthority(p)|
    case UfHost => if p.authority.Some? then |BeforeName(p, p.authority.value)| else |BeforeAuthority(p)|
    case UfPort => if p.authority.Some? then |BeforePort(p, p.authority.value)| else |BeforeAuthority(p)|
    case UfPath => |BeforePath(p)|
    case UfQuery => |BeforeQuery(p)| + if p.query.Some? then 1 else 0
    case UfFragment => |BeforeFragment(p)|
  }

  function Width(p: Parts, f: UrlField): nat {
    if Lies(p, f).Some? then Lies(p, f).value.len else 0
  }

  lemma LiesThere(p: Parts, f: UrlField)
    ensures Lies(p, f).Some? ==> Lies(p, f).value == Slice(Begins(p, f), Width(p, f)) && Width(p, f) > 0
  {
  }

  lemma Neighbours(p: Parts, f: UrlField, g: UrlField)
    requires Lies(p, f).Some? && Lies(p, g).Some? && Rank(f) < Rank(g)
    ensures Begins(p, f) + Width(p, f) <= Begins(p, g)
  {
    if Rank(g) <= 3 { InAuthority(p, f, g); }
    else {
      if Rank(f) <= 3 { AuthorityEnds(p, f); }
      hide BeforePath, BeforePort, BeforeName;
    }
  }

  lemma InAuthority(p: Parts, f: UrlField, g: UrlField)
    requires Lies(p, f).Some? && Lies(p, g).Some? && Rank(f) < Rank(g) <= 3
    ensures Begins(p, f) + Width(p, f) <= Begins(p, g)
  {
  }

  lemma AuthorityEnds(p: Parts, f: UrlField)
    requires Lies(p, f).Some? && Rank(f) <= 3
    ensures Begins(p, f) + Width(p, f) <= |BeforePath(p)|
  {
  }

  /** The fields are not empty, lie inside n bytes and do not overlap: one is behind the other in the
      order schema, userinfo, host, port, path, query, fragment. */
  predicate Laid(u: Fields, n: nat) {
    && (forall f | f in u :: u[f].len > 0 && u[f].off + u[f].len <= n)
    && (forall f, g | f in u && g in u && Rank(f) < Rank(g) :: u[f].off + u[f].len <= u[g].off)
  }

  /** The port is the decimal value of the digits in its field, and at most 65535; 0 if there is none. */
  predicate PortRead(buf: string, info: UrlInfo) {
    if UfPort !in info.fields then info.port == 0
    else
      var x := info.fields[UfPort];
      && x.off + x.len <= |buf| && AllNum(buf[x.off..x.off + x.len])
      && info.port == Decimal(buf[x.off..x.off + x.len]) <= MAX_PORT
  }

  lemma PartsLaid(p: Parts)
    ensures Laid(FieldsOf(p), |PrintUrl(p)|)
  {
    var u := FieldsOf(p);
    forall f ensures f in u ==> u[f] == Slice(Begins(p, f), Width(p, f)) && Width(p, f) > 0 && Lies(p, f).Some? {
      LiesThere(p, f);
    }
    hide Lies, Begins, Width, Rank, FieldsOf;
    forall f | f in u ensures u[f].off + u[f].len <= |PrintUrl(p)| {
      InBuffer(p, f);
    }
    forall f, g | f in u && g in u && Rank(f) < Rank(g) ensures u[f].off + u[f].len <= u[g].off {
      Neighbours(p, f, g);
    }
  }

  lemma InBuffer(p: Parts, f: UrlField)
    requires Lies(p, f).Some?
    ensures Begins(p, f) + Width(p, f) <= |PrintUrl(p)|
  {
    if Rank(f) <= 3 { AuthorityEnds(p, f); }
    hide BeforePath;
  }

  lemma PartsPort(connect: bool, p: Parts)
    requires UrlOk(connect, p)
    ensures PortRead(PrintUrl(p), InfoOf(connect, p))
  {
    hide FieldsOf, BeforePort, BeforePath, AfterAuthority, PrintUrl;
    if p.authority.None? || p.authority.value.port.None? {
      NoPort(p);
    } else {
      var a := p.authority.value;
      var port := a.port.value;
      PortField(connect, p, a, port);
      PortIsLast(p, a, port);
      PrintTail(p);
      hide Shaped;
      assert PrintUrl(p) == BeforePort(p, a) + (port + AfterAuthority(p));
      assert PrintUrl(p)[|BeforePort(p, a)|..|BeforePort(p, a)| + |port|] == port;
    }
  }

  /** The layout of an accepted URL; and CONNECT has a host and a port and nothing else. */
  lemma UrlLayout(connect: bool, buf: string)
    requires ParseUrl(connect, buf).Some?
    ensures var info := ParseUrl(connect, buf).value;
            Laid(info.fields, |buf|) && PortRead(buf, info) && (connect ==> info.fields.Keys == {UfHost, UfPort})
  {
    var p := AcceptedParts(connect, buf);
    hide ParseUrl, PrintUrl, Laid, PortRead, Limits, FieldsOf;
    PartsLaid(p);
    PartsPort(connect, p);
    if connect {
      LimitsOfConnect(p);
    }
  }

  lemma LimitsOfConnect(p: Parts)
    requires UrlOk(true, p)
    ensures FieldsOf(p).Keys == {UfHost, UfPort}
  {
    ConnectFields(p);
    hide FieldsOf, Shaped;
  }
}
