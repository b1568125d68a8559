/** The authorities that `http_parse_host` accepts, as a grammar, and where their fields lie. */
module HostGrammar {
  import opened Chars
  import opened Options
  import opened Urls

  /** What the second pass has read: the userinfo, whether the '@', the host with its brackets as far
      as they are there, whether the ':', the port. */
  datatype HostText = HostText(userinfo: string, at: bool, open: bool, host: string, close: bool, colon: bool,
                               port: string)

  function If(b: bool, s: string): string {
    if b then s else ""
  }

  function UpToName(x: HostText): string {
    x.userinfo + If(x.at, "@") + If(x.open, "[")
  }

  function UpToPort(x: HostText): string {
    UpToName(x) + x.host + If(x.close, "]") + If(x.colon, ":")
  }

  /** The text as it stands in the buffer. */
  function Show(x: HostText): string {
    UpToPort(x) + x.port
  }

  /** What can be in the text; found says whether the authority has an '@'. */
  predicate TextOk(found: bool, x: HostText) {
    && (forall i | 0 <= i < |x.userinfo| :: IsUserinfoChar(x.userinfo[i]))
    && (x.userinfo != "" || x.at ==> found)
    && (x.open || x.host != "" ==> x.at == found)
    && (forall i | 0 <= i < |x.host| :: if x.open then IsV6Char(x.host[i]) else IsHostChar(x.host[i]))
    && (x.close ==> x.open && x.host != "")
    && (x.colon ==> x.host != "" && x.close == x.open)
    && (forall i | 0 <= i < |x.port| :: IsNum(x.port[i]))
    && (x.port != "" ==> x.colon)
  }

  function StateAfter(found: bool, x: HostText): HostState {
    if x.port != "" then PortPart
    else if x.colon then PortStart
    else if x.close then V6End
    else if x.host != "" then if x.open then V6Part else HostPart
    else if x.open then V6Start
    else if x.at || !found then HostStart
    else if x.userinfo != "" then UserinfoPart
    else UserinfoStart
  }

  /** The variables of the second pass after the text, when it starts at offset off. */
  function CutOf(found: bool, off: nat, x: HostText): HostCut {
    HostCut(StateAfter(found, x),
            Slice(if x.host == "" then off else off + |UpToName(x)|, |x.host|),
            if x.port == "" then None else Some(Slice(off + |UpToPort(x)|, |x.port|)),
            if x.userinfo == "" then None else Some(Slice(off, |x.userinfo|)))
  }

  /** The text with one more byte, which leads from state s to state t. */
  function Add(x: HostText, t: HostState, c: char): HostText {
    match t
    case UserinfoPart => x.(userinfo := x.userinfo + [c])
    case HostStart => x.(at := true)
    case V6Start => x.(open := true)
    case HostPart => x.(host := x.host + [c])
    case V6Part => x.(host := x.host + [c])
    case V6End => x.(close := true)
    case PortStart => x.(colon := true)
    case PortPart => x.(port := x.port + [c])
    case _ => x
  }

  ghost predicate Grows(found: bool, x: HostText, t: HostState, c: char) {
    var y := Add(x, t, c);
    && TextOk(found, y) && StateAfter(found, y) == t && Show(y) == Show(x) + [c]
    && forall off: nat {:trigger CutOf(found, off, y)} ::
         CutOf(found, off, y) == EnterHost(CutOf(found, off, x), t, off + |Show(x)|)
  }

  lemma ByteFits(found: bool, x: HostText, c: char)
    requires TextOk(found, x) && !ParseHostChar(StateAfter(found, x), c).HostDead?
    ensures Grows(found, x, ParseHostChar(StateAfter(found, x), c), c)
  {
    var t := ParseHostChar(StateAfter(found, x), c);
    if t.UserinfoPart? { UserinfoFits(found, x, c); }
    else if t.HostStart? { AtFits(found, x, c); }
    else if t.V6Start? { BracketFits(found, x, c); }
    else if t.HostPart? || t.V6Part? { NameFits(found, x, c); }
    else if t.V6End? || t.PortStart? { EndFits(found, x, c); }
    else { PortFits(found, x, c); }
  }

  lemma UserinfoFits(found: bool, x: HostText, c: char)
    requires TextOk(found, x) && ParseHostChar(StateAfter(found, x), c).UserinfoPart?
    ensures Grows(found, x, UserinfoPart, c)
  {
    var y := Add(x, UserinfoPart, c);
    assert Show(x) == x.userinfo && Show(y) == x.userinfo + [c];
  }

  lemma AtFits(found: bool, x: HostText, c: char)
    requires TextOk(found, x) && ParseHostChar(StateAfter(found, x), c).HostStart?
    ensures Grows(found, x, HostStart, c)
  {
    var y := Add(x, HostStart, c);
    assert Show(x) == x.userinfo && Show(y) == x.userinfo + [c];
  }

  lemma BracketFits(found: bool, x: HostText, c: char)
    requires TextOk(found, x) && ParseHostChar(StateAfter(found, x), c).V6Start?
    ensures Grows(found, x, V6Start, c)
  {
    var y := Add(x, V6Start, c);
    assert Show(x) == x.userinfo + If(x.at, "@") && Show(y) == x.userinfo + If(x.at, "@") + [c];
  }

  lemma NameText(found: bool, x: HostText, c: char)
    requires TextOk(found, x)
    requires var t := ParseHostChar(StateAfter(found, x), c); t.HostPart? || t.V6Part?
    ensures var y := x.(host := x.host + [c]);
            && TextOk(found, y) && StateAfter(found, y) == ParseHostChar(StateAfter(found, x), c)
            && !x.close && !x.colon && x.port == ""
            && (x.host != "" <==> StateAfter(found, x) == StateAfter(found, y))
  {
    hide IsUserinfoChar;
  }

  lemma NameFits(found: bool, x: HostText, c: char)
    requires TextOk(found, x)
    requires var t := ParseHostChar(StateAfter(found, x), c); t.HostPart? || t.V6Part?
    ensures Grows(found, x, ParseHostChar(StateAfter(found, x), c), c)
  {
    hide UpToName, TextOk, ParseHostChar, StateAfter;
    var y := x.(host := x.host + [c]);
    NameText(found, x, c);
    SameUpToName(x, y);
    assert Show(x) == UpToName(x) + x.host && Show(y) == UpToName(x) + (x.host + [c]);
  }

  lemma SameUpToName(x: HostText, y: HostText)
    requires x.userinfo == y.userinfo && x.at == y.at && x.open == y.open
    ensures UpToName(x) == UpToName(y)
  {
  }

  lemma EndFits(found: bool, x: HostText, c: char)
    requires TextOk(found, x)
    requires var t := ParseHostChar(StateAfter(found, x), c); t.V6End? || t.PortStart?
    ensures Grows(found, x, ParseHostChar(StateAfter(found, x), c), c)
  {
    var y := Add(x, ParseHostChar(StateAfter(found, x), c), c);
    hide UpToName;
    assert UpToName(x) == UpToName(y) by { SameUpToName(x, y); }
    assert Show(x) == UpToName(x) + x.host + If(x.close, "]");
    assert Show(y) == UpToName(x) + x.host + If(x.close, "]") + [c];
  }

  lemma PortFits(found: bool, x: HostText, c: char)
    requires TextOk(found, x) && ParseHostChar(StateAfter(found, x), c).PortPart?
    ensures Grows(found, x, PortPart, c)
  {
    var y := Add(x, PortPart, c);
    hide UpToPort, UpToName;
    assert UpToPort(x) == UpToPort(y) && UpToName(x) == UpToName(y) by { SamePort(x, y); }
    assert Show(y) == UpToPort(x) + (x.port + [c]);
  }

  lemma SamePort(x: HostText, y: HostText)
    requires y == x.(port := y.port)
    ensures UpToPort(x) == UpToPort(y) && UpToName(x) == UpToName(y)
  {
  }

  // ---------------------------------------------------------------- the second pass reads exactly such texts

  const EMPTY := HostText("", false, false, "", false, false, "")

  /** The text before its last byte, and that byte. */
  function Front(x: HostText): (HostText, char) {
    if x.port != "" then (x.(port := x.port[..|x.port| - 1]), x.port[|x.port| - 1])
    else if x.colon then (x.(colon := false), ':')
    else if x.close then (x.(close := false), ']')
    else if x.host != "" then (x.(host := x.host[..|x.host| - 1]), x.host[|x.host| - 1])
    else if x.open then (x.(open := false), '[')
    else if x.at then (x.(at := false), '@')
    else if x.userinfo != "" then (x.(userinfo := x.userinfo[..|x.userinfo| - 1]), x.userinfo[|x.userinfo| - 1])
    else (x, '\0')
  }

  ghost predicate Undone(found: bool, x: HostText) {
    var (y, c) := Front(x);
    var t := StateAfter(found, x);
    TextOk(found, y) && ParseHostChar(StateAfter(found, y), c) == t && Add(y, t, c) == x
  }

  lemma Undo(found: bool, x: HostText)
    requires TextOk(found, x) && x != EMPTY
    ensures Undone(found, x)
  {
    hide Undone;
    if x.port != "" || x.colon { UndoPort(found, x); }
    else if x.close { UndoBracket(found, x); }
    else if x.host != "" { UndoName(found, x); }
    else { UndoUserinfo(found, x); }
  }

  lemma UndoPort(found: bool, x: HostText)
    requires TextOk(found, x) && (x.port != "" || x.colon)
    ensures Undone(found, x)
  {
    hide IsV6Char, IsUserinfoChar;
    if x.port != "" { Snoc(x.port); }
  }

  lemma UndoBracket(found: bool, x: HostText)
    requires TextOk(found, x) && x.port == "" && !x.colon && x.close
    ensures Undone(found, x)
  {
    hide IsUserinfoChar, IsV6Char, IsHostChar;
  }

  lemma UndoName(found: bool, x: HostText)
    requires TextOk(found, x) && x.port == "" && !x.colon && !x.close && x.host != ""
    ensures Undone(found, x)
  {
    hide IsUserinfoChar, IsV6Char, IsHostChar;
    Snoc(x.host);
    NameByte(x.open, x.host[|x.host| - 1]);
  }

  lemma NameByte(open: bool, c: char)
    ensures open && IsV6Char(c) ==> c != ']'
    ensures !open && IsHostChar(c) ==> c != '['
  {
  }

  lemma UndoUserinfo(found: bool, x: HostText)
    requires TextOk(found, x) && x.port == x.host == "" && !x.colon && !x.close && x != EMPTY
    ensures Undone(found, x)
  {
    if x.userinfo != "" { Snoc(x.userinfo); }
  }

  lemma Alive(found: bool, x: HostText)
    ensures !StateAfter(found, x).HostDead?
  {
  }

  /** One step of the second pass, over a text that starts at off. */
  lemma SecondPassStep(found: bool, buf: string, off: nat, x: HostText, c: char)
    requires TextOk(found, x) && !ParseHostChar(StateAfter(found, x), c).HostDead?
    requires var hi := off + |Show(x)|;
             hi < |buf| && buf[hi] == c && SecondPass(found, buf, off, hi) == CutOf(found, off, x)
    ensures var y := Add(x, ParseHostChar(StateAfter(found, x), c), c);
            && TextOk(found, y) && Show(y) == Show(x) + [c]
            && SecondPass(found, buf, off, off + |Show(y)|) == CutOf(found, off, y)
  {
    ByteFits(found, x, c);
    Alive(found, x);
    hide TextOk, ParseHostChar, Show, StateAfter, Add, EnterHost, CutOf;
    assert CutOf(found, off, x).s == StateAfter(found, x) by { CutState(found, off, x); }
  }

  lemma CutState(found: bool, off: nat, x: HostText)
    ensures CutOf(found, off, x).s == StateAfter(found, x)
  {
  }

  lemma SliceSnoc(buf: string, off: nat, s: string, c: char)
    requires off + |s| < |buf| && buf[off..off + |s| + 1] == s + [c]
    ensures buf[off..off + |s|] == s && buf[off + |s|] == c
  {
    var hi := off + |s|;
    assert buf[off..hi] == buf[off..hi + 1][..|s|] && buf[hi] == buf[off..hi + 1][|s|];
  }

  lemma NothingRead(found: bool, buf: string, off: nat)
    requires off <= |buf|
    ensures TextOk(found, EMPTY) && Show(EMPTY) == "" && SecondPass(found, buf, off, off) == CutOf(found, off, EMPTY)
  {
  }

  lemma {:induction false} SecondPassOf(found: bool, buf: string, off: nat, x: HostText)
    requires TextOk(found, x) && off + |Show(x)| <= |buf| && buf[off..off + |Show(x)|] == Show(x)
    ensures SecondPass(found, buf, off, off + |Show(x)|) == CutOf(found, off, x)
    decreases |Show(x)|
  {
    hide TextOk, ParseHostChar, Show, StateAfter, Add, CutOf, SecondPass;
    if x == EMPTY {
      NothingRead(found, buf, off);
    } else {
      var y, c := Shorter(found, x);
      SliceSnoc(buf, off, Show(y), c);
      SecondPassOf(found, buf, off, y);
      SecondPassStep(found, buf, off, y, c);
    }
  }

  /** A text without its last byte. */
  lemma Shorter(found: bool, x: HostText) returns (y: HostText, c: char)
    requires TextOk(found, x) && x != EMPTY
    ensures TextOk(found, y) && Show(x) == Show(y) + [c]
    ensures var t := ParseHostChar(StateAfter(found, y), c); !t.HostDead? && Add(y, t, c) == x
  {
    hide TextOk, ParseHostChar, Show, StateAfter, Add, Front;
    Undo(found, x);
    y, c := Front(x).0, Front(x).1;
    Alive(found, x);
    ByteFits(found, y, c);
  }

  lemma {:induction false} SecondPassReads(found: bool, buf: string, off: nat, hi: nat) returns (x: HostText)
    requires off <= hi <= |buf| && !SecondPass(found, buf, off, hi).s.HostDead?
    ensures TextOk(found, x) && Show(x) == buf[off..hi] && SecondPass(found, buf, off, hi) == CutOf(found, off, x)
    decreases hi
  {
    hide TextOk, ParseHostChar, Show, StateAfter, Add, CutOf;
    if off == hi {
      x := EMPTY;
      NothingRead(found, buf, off);
    } else {
      var y := SecondPassReads(found, buf, off, hi - 1);
      var c := buf[hi - 1];
      CutState(found, off, y);
      hide EnterHost;
      SecondPassStep(found, buf, off, y, c);
      x := Add(y, ParseHostChar(StateAfter(found, y), c), c);
      assert buf[off..hi] == buf[off..hi - 1] + [c];
    }
  }
}
