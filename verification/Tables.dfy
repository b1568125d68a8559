/** The tables and character classes of the parser, compared with the words of the standards: what each
    byte is taken for, in the states in which that matters. */
module Tables {
  import opened Chars
  import opened Parser
  import opened Urls

  // ---------------------------------------------------------------- section 2 of RFC 3986

  predicate Letter(c: char) {
    'A' <= c <= 'Z' || 'a' <= c <= 'z'
  }

  predicate Unreserved(c: char) {
    Letter(c) || '0' <= c <= '9' || c == '-' || c == '.' || c == '_' || c == '~'
  }

  predicate SubDelim(c: char) {
    || c == '!' || c == '$' || c == '&' || c == '\'' || c == '(' || c == ')' || c == '*' || c == '+' || c == ','
    || c == ';' || c == '='
  }

  /** The bytes of a path (section 3.3 of RFC 3986), and the other printable ones that the parser takes. */
  predicate PathChar(c: char) {
    || Unreserved(c) || SubDelim(c) || c == '%' || c == ':' || c == '@' || c == '/'
    || c == '"' || c == '<' || c == '>' || c == '[' || c == '\\' || c == ']' || c == '^' || c == '`' || c == '{'
    || c == '|' || c == '}'
  }

  /** The bytes of a userinfo (section 3.2.1 of RFC 3986). */
  predicate UserinfoChar(c: char) {
    Unreserved(c) || SubDelim(c) || c == '%' || c == ':'
  }

  predicate HexChar(c: char) {
    '0' <= c <= '9' || 'A' <= c <= 'F' || 'a' <= c <= 'f'
  }

  /** What parse_url_char makes of a byte in the path and behind it. */
  lemma PathBytes(c: char)
    ensures ParseUrlChar(ReqPath, c) == if PathChar(c) then ReqPath else if c == '?' then ReqQueryStringStart
                                        else if c == '#' then ReqFragmentStart else Dead
    ensures ParseUrlChar(ReqQueryStringStart, c) == ParseUrlChar(ReqQueryString, c)
            == if PathChar(c) || c == '?' then ReqQueryString else if c == '#' then ReqFragmentStart else Dead
    ensures ParseUrlChar(ReqFragmentStart, c) == if PathChar(c) || c == '?' then ReqFragment
                                                 else if c == '#' then ReqFragmentStart else Dead
    ensures ParseUrlChar(ReqFragment, c) == if PathChar(c) || c == '?' || c == '#' then ReqFragment else Dead
  {
  }

  /** The same up to the path. */
  lemma ServerBytes(c: char)
    ensures ParseUrlChar(ReqSchema, c) == if Letter(c) then ReqSchema else if c == ':' then ReqSchemaSlash else Dead
    ensures ParseUrlChar(ReqSpacesBeforeUrl, c) == if c == '/' || c == '*' then ReqPath
                                                   else if Letter(c) then ReqSchema else Dead
    ensures ParseUrlChar(ReqServerStart, c) == ParseUrlChar(ReqServer, c)
            == if c == '/' then ReqPath else if c == '?' then ReqQueryStringStart else if c == '@' then ReqServerWithAt
               else if UserinfoChar(c) || c == '[' || c == ']' then ReqServer else Dead
    ensures ParseUrlChar(ReqServerWithAt, c) == if c == '@' then Dead else ParseUrlChar(ReqServer, c)
  {
  }

  /** What http_parse_host_char makes of a byte where a field goes on. */
  lemma HostBytes(c: char)
    ensures ParseHostChar(UserinfoStart, c) == ParseHostChar(UserinfoPart, c)
            == if UserinfoChar(c) then UserinfoPart else if c == '@' then HostStart else HostDead
    ensures ParseHostChar(HostStart, c) == if Letter(c) || '0' <= c <= '9' || c == '.' || c == '-' then HostPart
                                           else if c == '[' then V6Start else HostDead
    ensures ParseHostChar(HostPart, c) == if Letter(c) || '0' <= c <= '9' || c == '.' || c == '-' then HostPart
                                          else if c == ':' then PortStart else HostDead
    ensures ParseHostChar(V6Start, c) == if HexChar(c) || c == ':' || c == '.' then V6Part else HostDead
    ensures ParseHostChar(V6Part, c) == if HexChar(c) || c == ':' || c == '.' then V6Part
                                        else if c == ']' then V6End else HostDead
    ensures ParseHostChar(V6End, c) == if c == ':' then PortStart else HostDead
    ensures ParseHostChar(PortStart, c) == ParseHostChar(PortPart, c) == if '0' <= c <= '9' then PortPart else HostDead
  {
  }

  /** A byte of a target, in the parser: in s_req_path it is refused, it goes on, or it leads to a part
      behind the path, and only a blank or a line end leads out. */
  lemma PathByte(p: Parser, c: char)
    requires p.state.ReqPath? && p.nread < 81920
    ensures var m := Step(p, c);
            && (m.next.Advance? && m.p.state.ReqPath? && m.out == [Byte(Url, c)] <==> PathChar(c))
            && (m.next.Error? <==> !PathChar(c) && c != '?' && c != '#' && c != ' ' && c != '\r' && c != '\n')
  {
    hide ParseUrlChar, PathChar;
    PathBytes(c);
    BlankIsNoPathChar();
    assert Micro(Count(p), c) == InUrl(Count(p), c);
  }

  lemma BlankIsNoPathChar()
    ensures !PathChar(' ') && !PathChar('\r') && !PathChar('\n') && !PathChar('?') && !PathChar('#')
  {
  }

  // ---------------------------------------------------------------- section 2.2 of RFC 2616

  predicate Separator(c: char) {
    || c == '(' || c == ')' || c == '<' || c == '>' || c == '@' || c == ',' || c == ';' || c == ':' || c == '\\'
    || c == '"' || c == '/' || c == '[' || c == ']' || c == '?' || c == '=' || c == '{' || c == '}' || c == ' '
    || c == '\t'
  }

  /** Any ASCII character except controls and separators. */
  predicate TokenChar(c: char) {
    32 <= c as int < 127 && !Separator(c)
  }

  lemma TokenBytes(c: char)
    ensures Token(c) == if !TokenChar(c) then '\0' else if 'A' <= c <= 'Z' then (c as int + 32) as char else c
  {
  }

  /** A byte of a field name, in the parser. */
  lemma NameByte(p: Parser, c: char)
    requires p.state.HeaderField? && p.nread < 81920
    ensures var m := Step(p, c);
            && (m.next.Advance? && m.p.state.HeaderField? && m.out == [Byte(Name, c)] <==> TokenChar(c))
            && (m.next.Error? <==> !TokenChar(c) && c != ':' && c != '\r' && c != '\n')
  {
    hide FieldMatch, Token, TokenChar;
    TokenBytes(c);
    NoTokenChar();
    assert Micro(Count(p), c) == AtField(Count(p), c);
  }

  lemma NoTokenChar()
    ensures !TokenChar(':') && !TokenChar('\r') && !TokenChar('\n') && !TokenChar('\0')
  {
  }

  // ---------------------------------------------------------------- bytes that are skipped

  /** Line ends before a request, blanks behind the method and the target, blanks and tabs before a value. */
  lemma SkippedByte(p: Parser, c: char)
    requires p.nread < 81920
    requires p.state.StartReq? || p.state.ReqSpacesBeforeUrl? || p.state.ReqHttpStart? || p.state.HeaderValueStart?
    ensures Step(p, c) == Move(p.(nread := p.nread + 1)) <==>
            if p.state.StartReq? then c == '\r' || c == '\n'
            else if p.state.HeaderValueStart? then c == ' ' || c == '\t' else c == ' '
  {
    hide FirstCandidate, ParseUrlChar, UrlPrefix, UrlRest, AtValueFirst;
    if p.state.HeaderValueStart? {
      assert Micro(Count(p), c) == AtValueStart(Count(p), c);
      FirstByteMoves(Count(p).(state := HeaderValue, index := 0), c);
    } else {
      assert Micro(Count(p), c) == RequestLine(Count(p), c);
    }
  }

  lemma FirstByteMoves(p: Parser, c: char)
    ensures AtValueFirst(p, c).next != Reexecute && AtValueFirst(p, c).p.state == p.state
  {
  }

  // ---------------------------------------------------------------- numbers

  lemma HexAccepts(c: char)
    ensures Unhex(c) == -1 <==> !HexChar(c) && c as int < 128
    ensures c as int >= 128 ==> Unhex(c) == 0
  {
  }

  /** The limits: 80 KiB of header bytes, 64 bits for lengths, 16 bits for ports. */
  lemma Limits()
    ensures HTTP_MAX_HEADER_SIZE == 81920 && MAX_PORT == 65535
    ensures ULLONG_MAX == ULONG_MAX == 18446744073709551615 && TWO_TO_THE_64 == 18446744073709551616
  {
  }

  /** The parser that `http_parser_init` leaves: every field is zero but for the state. */
  lemma Fresh()
    ensures var p := INITIAL;
            && p.state.StartReq? && p.headerState.General? && p.index == 0 && p.nread == 0 && p.contentLength == 0
            && p.httpMajor == 0 && p.httpMinor == 0 && p.verb.DELETE? && !p.upgrade && p.errno.Ok?
            && p.flags == Flags(false, false, false, false, false) == NO_FLAGS
  {
  }
}
