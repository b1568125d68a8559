/** Requests as a client writes them, letter by letter, and what the server makes of them. */
module EndToEnd {
  import opened Chars
  import opened Options
  import opened Parser
  import opened Values
  import opened Names
  import opened Lengths
  import opened Lines
  import opened Framing
  import opened RequestLines
  import opened Requests
  import opened Targets
  import opened Wrapper

  // ---------------------------------------------------------------- header lines

  function LengthLine(n: nat): Line {
    Line("Content-Length", true, Part(" ", Decimals(n), "\r\n"), [])
  }

  function ConnectionLine(conn: string): Line {
    Line("Connection", true, Part(" ", conn, "\r\n"), [])
  }

  const CHUNKED_LINE := Line("Transfer-Encoding", true, Part(" ", "chunked", "\r\n"), [])

  lemma SomeNames()
    ensures IsName("Content-Length") && Meaning(LowerName("Content-Length")) == ContentLength
    ensures IsName("Connection") && Meaning(LowerName("Connection")) == Connection
    ensures IsName("Transfer-Encoding") && Meaning(LowerName("Transfer-Encoding")) == TransferEncoding
  {
    hide Meaning, LowerName;
    MeaningIs("Content-Length");
    MeaningIs("Connection");
    MeaningIs("Transfer-Encoding");
  }

  lemma LengthFacts(f: Facts, n: nat)
    requires n < 0xFFFF_FFFF_FFFF_FFFF
    ensures LineFits(LengthLine(n)) && LineFacts(f, LengthLine(n)) == f.(length := n)
  {
    hide Decimals, Guarded, Digits, IsName, Meaning, LowerName;
    SomeNames();
    PrintedLength(n);
  }

  lemma ConnectionFacts(f: Facts, conn: string)
    requires IsValue(conn)
    ensures LineFits(ConnectionLine(conn))
    ensures LineFacts(f, ConnectionLine(conn)) ==
            f.(flags := f.flags.(keepAlive := f.flags.keepAlive || IsKeyword(conn, "keep-alive"),
                                 close := f.flags.close || IsKeyword(conn, "close")))
  {
    hide IsName, Meaning, LowerName, IsKeyword;
    SomeNames();
  }

  lemma ChunkedFacts(f: Facts)
    ensures LineFits(CHUNKED_LINE) && LineFacts(f, CHUNKED_LINE) == f.(flags := f.flags.(chunked := true))
  {
    hide IsName, Meaning, LowerName;
    SomeNames();
    assert "chunked"[7..] == "";
  }

  // ---------------------------------------------------------------- whole requests

  /** The request line and the header of a POST. */
  function Head(path: string, minor: char, field: string, conn: string): string {
    "POST " + path + " HTTP/1." + [minor] + "\r\n" + field + "\r\n" + "Connection: " + conn + "\r\n\r\n"
  }

  function Post(path: string, minor: char, line: Line, conn: string, content: Content): Request {
    Request("", POST, "", path, Numbered("", "1", [minor], "\r\n"), [line, ConnectionLine(conn)], "\r\n", content)
  }

  predicate Sendable(path: string, minor: char, conn: string) {
    IsPath(path) && (minor == '0' || minor == '1') && IsValue(conn)
  }

  lemma PostHead(path: string, minor: char, field: string, line: Line, conn: string, content: Content)
    requires Sendable(path, minor, conn) && LineFits(line) && PrintLine(line) == field + "\r\n"
    ensures var r := Post(path, minor, line, conn, content);
            && PrintHead(r) == Head(path, minor, field, conn) && HeadFits(r)
            && MajorOf(r.version) == 1 && MinorOf(r.version) == if minor == '1' then 1 else 0
  {
    hide LineFits, PrintLine, TargetOk, IsKeyword;
    var r := Post(path, minor, line, conn, content);
    PathIsTarget(path);
    ConnectionFacts(Facts(NO_FLAGS, 0), conn);
    OneDigit('1');
    OneDigit(minor);
    ConnectionPrints(conn);
    assert PrintLines(r.lines[1..]) == PrintLine(ConnectionLine(conn)) + "";
    assert PrintLines(r.lines) == field + "\r\n" + ("Connection: " + conn + "\r\n");
    assert PrintRequestLine(r) == "POST " + path + " HTTP/1." + [minor] + "\r\n" by { LineText(path, minor); }
  }

  lemma OneDigit(c: char)
    requires IsNum(c)
    ensures AllNum([c]) && Decimal([c]) == Digit(c)
  {
    DecimalSnoc("", c);
    assert "" + [c] == [c];
  }

  lemma ConnectionPrints(conn: string)
    ensures PrintLine(ConnectionLine(conn)) == "Connection: " + conn + "\r\n"
  {
    assert "Connection" + ":" + (" " + conn + "\r\n") == "Connection: " + conn + "\r\n";
  }

  lemma LineText(path: string, minor: char)
    ensures "" + ("POST" + " " + ("" + (path + (" " + ("" + ("HTTP/" + ("1" + ("." + ([minor] + "\r\n")))))))))
            == "POST " + path + " HTTP/1." + [minor] + "\r\n"
  {
  }

  /** What the header of such a request says. */
  lemma PostFacts(path: string, minor: char, line: Line, conn: string, content: Content, f: Facts)
    requires LineFits(line) && IsValue(conn)
    requires LineFacts(Facts(Flags(false, false, false, false, false), 0xFFFF_FFFF_FFFF_FFFF), line) == f
    requires HeadFits(Post(path, minor, line, conn, content))
    ensures HeadFacts(Post(path, minor, line, conn, content)) ==
            f.(flags := f.flags.(keepAlive := f.flags.keepAlive || IsKeyword(conn, "keep-alive"),
                                 close := f.flags.close || IsKeyword(conn, "close")))
  {
    hide LineFits, LineFacts, HeadFits, IsKeyword;
    var ls := [line, ConnectionLine(conn)];
    assert line in ls && ConnectionLine(conn) in ls;
    ConnectionFacts(f, conn);
    assert ls[1..] == [ConnectionLine(conn)] && ls[1..][1..] == [];
    TwoLines(Facts(NO_FLAGS, ULLONG_MAX), line, ConnectionLine(conn));
  }

  /** Both together. */
  lemma PostSays(path: string, minor: char, field: string, line: Line, conn: string, content: Content, f: Facts)
    requires Sendable(path, minor, conn) && LineFits(line) && PrintLine(line) == field + "\r\n"
    requires LineFacts(Facts(Flags(false, false, false, false, false), 0xFFFF_FFFF_FFFF_FFFF), line) == f
    ensures var r := Post(path, minor, line, conn, content);
            && PrintHead(r) == Head(path, minor, field, conn) && HeadFits(r)
            && MajorOf(r.version) == 1 && MinorOf(r.version) == (if minor == '1' then 1 else 0)
            && HeadFacts(r) ==
               f.(flags := f.flags.(keepAlive := f.flags.keepAlive || IsKeyword(conn, "keep-alive"),
                                    close := f.flags.close || IsKeyword(conn, "close")))
  {
    hide LineFits, LineFacts, HeadFits, HeadFacts, IsKeyword, PrintHead, PrintLine, Head, Post;
    PostHead(path, minor, field, line, conn, content);
    PostFacts(path, minor, line, conn, content, f);
  }

  lemma TwoLines(f: Facts, a: Line, b: Line)
    requires LineFits(a) && LineFits(b)
    ensures LinesFit([a, b]) && LinesFacts(f, [a, b]) == LineFacts(LineFacts(f, a), b)
  {
    hide LineFits, LineFacts;
    assert [a, b][1..] == [b] && [b][1..] == [];
    var g := LineFacts(f, a);
    assert LinesFit([]) && LinesFit([b]);
    assert LinesFacts(g, [b]) == LinesFacts(LineFacts(g, b), []);
  }

  /** Whether the connection stays open behind a request of HTTP/1.0 or HTTP/1.1. */
  predicate GoesOn(minor: char, conn: string) {
    if minor == '1' then !IsKeyword(conn, "close") else IsKeyword(conn, "keep-alive")
  }

  /** A request with a Content-Length. */
  lemma PlainPost(path: string, minor: char, conn: string, body: string)
    requires Sendable(path, minor, conn) && |body| < 0xFFFF_FFFF_FFFF_FFFF
    requires |Head(path, minor, "Content-Length: " + Decimals(|body|), conn)| <= 81920
    ensures var s := Head(path, minor, "Content-Length: " + Decimals(|body|), conn) + body;
            var q := Run(INITIAL, 0, s).p;
            && IsReadAll(s) && Text(Url, Events(s)) == path && Text(Body, Events(s)) == body && q.verb == POST
            && q.state == if GoesOn(minor, conn) then StartReq else Dead
  {
    hide Run, Text, WellFormed, StaysOpen, Decimals, GoesOn, PrintHead, Head, IsReadAll, Sendable;
    PlainFits(path, minor, conn, body);
    Handed(Post(path, minor, LengthLine(|body|), conn, Raw(body)));
  }

  lemma PlainFits(path: string, minor: char, conn: string, body: string)
    requires Sendable(path, minor, conn) && |body| < 0xFFFF_FFFF_FFFF_FFFF
    ensures var r := Post(path, minor, LengthLine(|body|), conn, Raw(body));
            && WellFormed(r) && (StaysOpen(r) <==> GoesOn(minor, conn))
            && PrintHead(r) == Head(path, minor, "Content-Length: " + Decimals(|body|), conn)
  {
    hide HeadFits, HeadFacts, LineFits, LineFacts, Decimals, IsKeyword, PrintHead, Head, PrintLine, MajorOf, MinorOf,
         ChunkOk, LastOk, Sendable, LengthLine;
    var line := LengthLine(|body|);
    var f := Facts(Flags(false, false, false, false, false), 0xFFFF_FFFF_FFFF_FFFF);
    LengthFacts(f, |body|);
    LengthPrints(|body|);
    PostSays(path, minor, "Content-Length: " + Decimals(|body|), line, conn, Raw(body), f.(length := |body|));
  }

  lemma LengthPrints(n: nat)
    ensures PrintLine(LengthLine(n)) == "Content-Length: " + Decimals(n) + "\r\n"
  {
    hide Decimals;
    assert "Content-Length" + ":" + (" " + Decimals(n) + "\r\n") == "Content-Length: " + Decimals(n) + "\r\n";
  }

  lemma Handed(r: Request)
    requires WellFormed(r) && |PrintHead(r)| <= 81920
    ensures var s := PrintHead(r) + PrintContent(r.content); var q := Run(INITIAL, 0, s).p;
            && IsReadAll(s) && Text(Url, Events(s)) == r.target && Text(Body, Events(s)) == Decoded(r.content)
            && q.verb == r.verb && q.state == if StaysOpen(r) then StartReq else Dead
  {
    hide Run, Text, WellFormed, Decoded, PrintContent, PrintHead, StaysOpen, IsReadAll;
    RequestRoundTrip(INITIAL, r);
    HandsOverRequest(r, |Print(r)|);
    assert Print(r)[..|Print(r)|] == Print(r);
  }

  /** A request with one chunk, its size printed in hex in either case. */
  lemma ChunkedPost(path: string, minor: char, conn: string, data: string, upper: bool)
    requires Sendable(path, minor, conn) && 0 < |data| < 0xFFFF_FFFF_FFFF_FFFF
    requires |Head(path, minor, "Transfer-Encoding: chunked", conn)| <= 81920
    ensures var s := Head(path, minor, "Transfer-Encoding: chunked", conn) + ShowHex(|data|, upper) + "\r\n" + data
                     + "\r\n0\r\n\r\n";
            var q := Run(INITIAL, 0, s).p;
            && IsReadAll(s) && Text(Url, Events(s)) == path && Text(Body, Events(s)) == data && q.verb == POST
            && q.state == if GoesOn(minor, conn) then StartReq else Dead
  {
    hide Run, Text, WellFormed, StaysOpen, ShowHex, GoesOn, PrintHead, Head, IsReadAll, Sendable, PrintContent, Decoded;
    ChunkedFits(path, minor, conn, data, upper);
    OneChunk(data, upper);
    Handed(Post(path, minor, CHUNKED_LINE, conn, InOneChunk(data, upper)));
    var h, c := Head(path, minor, "Transfer-Encoding: chunked", conn), ShowHex(|data|, upper);
    assert h + (c + "\r\n" + data + "\r\n0\r\n\r\n") == h + c + "\r\n" + data + "\r\n0\r\n\r\n";
  }

  function InOneChunk(data: string, upper: bool): Content {
    Coded([Chunk(ShowHex(|data|, upper), "", data)], Last("0", "", [], "\r\n"))
  }

  lemma ChunkedFits(path: string, minor: char, conn: string, data: string, upper: bool)
    requires Sendable(path, minor, conn) && 0 < |data| < 0xFFFF_FFFF_FFFF_FFFF
    ensures var r := Post(path, minor, CHUNKED_LINE, conn, InOneChunk(data, upper));
            && WellFormed(r) && (StaysOpen(r) <==> GoesOn(minor, conn))
            && PrintHead(r) == Head(path, minor, "Transfer-Encoding: chunked", conn)
  {
    hide HeadFits, HeadFacts, LineFits, LineFacts, IsKeyword, PrintHead, Head, PrintLine, ShowHex, ChunkOk, LastOk,
         LinesFacts, LinesFit, PrintContent, Decoded, MajorOf, MinorOf, Sendable;
    var content := InOneChunk(data, upper);
    var f := Facts(Flags(false, false, false, false, false), 0xFFFF_FFFF_FFFF_FFFF);
    ChunkedFacts(f);
    ChunkedPrints();
    PostSays(path, minor, "Transfer-Encoding: chunked", CHUNKED_LINE, conn, content,
             f.(flags := f.flags.(chunked := true)));
    OneChunk(data, upper);
    NoTrailer(HeadFacts(Post(path, minor, CHUNKED_LINE, conn, content)).flags);
  }

  lemma ChunkedPrints()
    ensures PrintLine(CHUNKED_LINE) == "Transfer-Encoding: chunked" + "\r\n"
  {
    assert "Transfer-Encoding" + ":" + (" " + "chunked" + "\r\n") == "Transfer-Encoding: chunked" + "\r\n";
  }

  lemma OneChunk(data: string, upper: bool)
    requires 0 < |data| < 0xFFFF_FFFF_FFFF_FFFF
    ensures var c := Chunk(ShowHex(|data|, upper), "", data); var last := Last("0", "", [], "\r\n");
            && ChunkOk(c) && LastOk(last) && Decoded(Coded([c], last)) == data
            && PrintContent(Coded([c], last)) == c.size + "\r\n" + data + "\r\n0\r\n\r\n"
  {
    hide ShowHex, Guarded, HexDigits, IsHexString, Encode, EncodeLast;
    PrintedSize(|data|, upper);
    ZeroSize();
    var c := Chunk(ShowHex(|data|, upper), "", data);
    ChunkPrints(c);
    LastPrints();
    assert [c][1..] == [] && Payload([]) == "" && EncodeAll([]) == "";
    assert Payload([c]) == data + "" && EncodeAll([c]) == Encode(c) + "";
    assert c.size + "\r\n" + data + "\r\n" + "0\r\n\r\n" == c.size + "\r\n" + data + "\r\n0\r\n\r\n";
  }

  lemma ChunkPrints(c: Chunk)
    requires c.ext == ""
    ensures Encode(c) == c.size + "\r\n" + c.data + "\r\n"
  {
    assert c.size + "" == c.size;
  }

  lemma LastPrints()
    ensures EncodeLast(Last("0", "", [], "\r\n")) == "0\r\n\r\n"
  {
    assert "0" + "" + "\r\n" + "" + "\r\n" == "0\r\n\r\n";
  }

  lemma ZeroSize()
    ensures IsHexString("0") && Guarded(16, HexDigits("0")) == Some(0)
  {
    hide Guarded, HexDigits;
    PrintedSize(0, false);
    assert ShowHex(0, false) == "0";
  }

  lemma NoTrailer(f: Flags)
    ensures LinesFit([]) && TrailerFacts(f, Last("0", "", [], "\r\n")).flags == f.(trailing := true)
  {
  }
}
