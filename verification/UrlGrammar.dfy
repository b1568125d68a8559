/** The URLs that `http_parser_parse_url` accepts, as a grammar with no state machine in it, and where
    their fields lie: parsing succeeds with a result if and only if the grammar gives that result. */
module UrlGrammar {
  import opened Chars
  import opened Options
  import opened Parser
  import opened Urls

  // ---------------------------------------------------------------- text that the first pass reads

  /** What the first pass has read: the schema, so many bytes of "://", the authority, the path, the
      query behind its '?', so many '#', the fragment. */
  datatype Text = Text(schema: string, sep: nat, auth: string, path: string, query: Option<string>, marks: nat,
                       fragment: string)

  function Marks(n: nat): (s: string)
    ensures |s| == n
  {
    seq(n, _ => '#')
  }

  function QueryText(q: Option<string>): string {
    if q.None? then "" else "?" + q.value
  }

  function UpToHost(x: Text): string
    requires x.sep <= 3
  {
    x.schema + "://"[..x.sep]
  }

  function UpToPath(x: Text): string
    requires x.sep <= 3
  {
    UpToHost(x) + x.auth + x.path
  }

  /** The text as it stands in the buffer. */
  function Show(x: Text): string
    requires x.sep <= 3
  {
    UpToPath(x) + QueryText(x.query) + Marks(x.marks) + x.fragment
  }

  predicate IsServerChar(c: char) {
    IsUserinfoChar(c) || c == '[' || c == ']' || c == '@'
  }

  /** What the first pass takes for an authority: no two '@' in a row. */
  predicate ServerOk(s: string) {
    && (forall i | 0 <= i < |s| :: IsServerChar(s[i]))
    && (forall i | 0 <= i < |s| - 1 :: !(s[i] == '@' && s[i + 1] == '@'))
  }

  predicate QueryOk(q: string) {
    forall i | 0 <= i < |q| :: IsUrlChar(q[i]) || q[i] == '?'
  }

  predicate FragmentOk(s: string) {
    && (s != "" ==> s[0] != '#')
    && forall i | 0 <= i < |s| :: IsUrlChar(s[i]) || s[i] == '?' || s[i] == '#'
  }

  predicate TextOk(connect: bool, x: Text) {
    && (forall i | 0 <= i < |x.schema| :: IsAlpha(x.schema[i]))
    && x.sep <= 3 && (x.sep > 0 ==> x.schema != "") && (connect ==> x.schema == "")
    && ServerOk(x.auth) && (x.auth != "" ==> x.sep == 3 || connect)
    && (x.path != "" ==> (x.schema == "" || x.sep == 3) && StartsPath(connect, x))
    && (forall i | 0 <= i < |x.path| :: IsUrlChar(x.path[i]))
    && (x.query.Some? ==> QueryOk(x.query.value) && (x.path != "" || x.sep == 3 || connect))
    && (x.marks > 0 ==> x.path != "" || x.query.Some?)
    && FragmentOk(x.fragment) && (x.fragment != "" ==> x.marks > 0)
  }

  predicate StartsPath(connect: bool, x: Text)
    requires x.path != ""
  {
    x.path[0] == '/' || (x.path[0] == '*' && !connect && x.schema == "")
  }

  /** The state the first pass is in after the text. */
  function StateAfter(connect: bool, x: Text): State {
    if x.fragment != "" then ReqFragment
    else if x.marks > 0 then ReqFragmentStart
    else if x.query.Some? then if x.query.value == "" then ReqQueryStringStart else ReqQueryString
    else if x.path != "" then ReqPath
    else if x.auth != "" then if x.auth[|x.auth| - 1] == '@' then ReqServerWithAt else ReqServer
    else if x.sep == 3 then ReqServerStart
    else if x.sep == 2 then ReqSchemaSlashSlash
    else if x.sep == 1 then ReqSchemaSlash
    else if x.schema != "" then ReqSchema
    else Start(connect)
  }

  function LastField(x: Text): Option<UrlField> {
    if x.fragment != "" then Some(UfFragment)
    else if x.query.Some? && x.query.value != "" then Some(UfQuery)
    else if x.path != "" then Some(UfPath)
    else if x.auth != "" then Some(UfHost)
    else if x.schema != "" then Some(UfSchema)
    else None
  }

  /** Where a field of the text lies. */
  function Piece(x: Text, f: UrlField): Option<Slice>
    requires x.sep <= 3
  {
    match f
    case UfSchema => if x.schema == "" then None else Some(Slice(0, |x.schema|))
    case UfHost => if x.auth == "" then None else Some(Slice(|UpToHost(x)|, |x.auth|))
    case UfPath => if x.path == "" then None else Some(Slice(|UpToHost(x)| + |x.auth|, |x.path|))
    case UfQuery =>
      if x.query.None? || x.query.value == "" then None else Some(Slice(|UpToPath(x)| + 1, |x.query.value|))
    case UfFragment =>
      if x.fragment == "" then None
      else Some(Slice(|UpToPath(x)| + |QueryText(x.query)| + x.marks, |x.fragment|))
    case _ => None
  }

  function Pieces(x: Text): Fields
    requires x.sep <= 3
  {
    map f: UrlField | Piece(x, f).Some? :: Piece(x, f).value
  }

  /** The variables of the first pass after the text. */
  function CutOf(connect: bool, x: Text): Cut
    requires x.sep <= 3
  {
    Cut(StateAfter(connect, x), LastField(x), Pieces(x), '@' in x.auth)
  }

  // ---------------------------------------------------------------- one byte

  /** The text with one more byte, which leads to state t. */
  function Add(x: Text, t: State, c: char): Text {
    match t
    case ReqSchema => x.(schema := x.schema + [c])
    case ReqSchemaSlash => x.(sep := 1)
    case ReqSchemaSlashSlash => x.(sep := 2)
    case ReqServerStart => x.(sep := 3)
    case ReqServer => x.(auth := x.auth + [c])
    case ReqServerWithAt => x.(auth := x.auth + [c])
    case ReqPath => x.(path := x.path + [c])
    case ReqQueryStringStart => x.(query := Some(""))
    case ReqQueryString => x.(query := Some((if x.query.Some? then x.query.value else "") + [c]))
    case ReqFragmentStart => x.(marks := x.marks + 1)
    case ReqFragment => x.(fragment := x.fragment + [c])
    case _ => x
  }

  /** One more byte, in terms of the grammar: the byte fits the text in state t. */
  ghost predicate Grows(connect: bool, x: Text, t: State, c: char)
    requires x.sep <= 3
  {
    var y := Add(x, t, c);
    && TextOk(connect, y) && StateAfter(connect, y) == t
    && Show(y) == Show(x) + [c]
    && CutOf(connect, y) == Enter(CutOf(connect, x), t, |Show(x)|)
  }

  lemma PiecesWithin(x: Text)
    requires x.sep <= 3
    ensures Within(Pieces(x), |Show(x)|)
  {
  }

  /** Nothing has been read after part k: 1 the schema, 2 the authority, 3 the path, 4 the query,
      5 the '#'s. */
  predicate EndsAt(x: Text, k: nat) {
    && (k <= 1 ==> x.auth == "") && (k <= 2 ==> x.path == "") && (k <= 3 ==> x.query.None?)
    && (k <= 4 ==> x.marks == 0) && (k <= 5 ==> x.fragment == "")
  }

  lemma ShowEnds(x: Text)
    requires x.sep <= 3
    ensures EndsAt(x, 1) ==> Show(x) == UpToHost(x)
    ensures EndsAt(x, 2) ==> Show(x) == UpToHost(x) + x.auth
    ensures EndsAt(x, 3) ==> Show(x) == UpToPath(x)
    ensures EndsAt(x, 4) ==> Show(x) == UpToPath(x) + QueryText(x.query)
    ensures EndsAt(x, 5) ==> Show(x) == UpToPath(x) + QueryText(x.query) + Marks(x.marks)
  {
  }

  /** Setting one field more, or anew. */
  lemma PiecesPut(x: Text, y: Text, f: UrlField)
    requires x.sep <= 3 && y.sep <= 3 && Piece(y, f).Some?
    requires forall g | g != f :: Piece(y, g) == Piece(x, g)
    ensures Pieces(y) == Pieces(x)[f := Piece(y, f).value]
    ensures f in Pieces(x) <==> Piece(x, f).Some?
    ensures f in Pieces(x) ==> Pieces(x)[f] == Piece(x, f).value
  {
    hide Piece;
  }

  lemma PiecesSame(x: Text, y: Text)
    requires x.sep <= 3 && y.sep <= 3 && forall g :: Piece(y, g) == Piece(x, g)
    ensures Pieces(y) == Pieces(x)
  {
    hide Piece;
  }

  /** Every byte that the first pass takes fits the grammar. */
  lemma ByteFits(connect: bool, x: Text, c: char)
    requires TextOk(connect, x) && !ParseUrlChar(StateAfter(connect, x), c).Dead?
    ensures Grows(connect, x, ParseUrlChar(StateAfter(connect, x), c), c)
  {
    var t := ParseUrlChar(StateAfter(connect, x), c);
    PiecesWithin(x);
    hide Grows, TextOk, Show, Pieces, StateAfter;
    if t.ReqSchema? { SchemaFits(connect, x, c); }
    else if t.ReqSchemaSlash? || t.ReqSchemaSlashSlash? || t.ReqServerStart? { SepFits(connect, x, c); }
    else if t.ReqServer? || t.ReqServerWithAt? { AuthFits(connect, x, c); }
    else if t.ReqPath? { PathFits(connect, x, c); }
    else if t.ReqQueryStringStart? { QueryMarkFits(connect, x, c); }
    else if t.ReqQueryString? { QueryFits(connect, x, c); }
    else if t.ReqFragmentStart? { MarkFits(connect, x, c); }
    else if t.ReqFragment? { FragmentFits(connect, x, c); }
    else { UrlCharStates(StateAfter(connect, x), c); }
  }

  /** A byte that belongs to a field: the pieces move as the first pass moves them. */
  lemma FieldGrows(connect: bool, x: Text, t: State, c: char, f: UrlField)
    requires x.sep <= 3 && Within(Pieces(x), |Show(x)|) && FieldOf(t) == Some(f)
    requires var y := Add(x, t, c);
             && TextOk(connect, y) && StateAfter(connect, y) == t && Show(y) == Show(x) + [c] && LastField(y) == Some(f)
             && (forall g | g != f :: Piece(y, g) == Piece(x, g))
             && Piece(y, f) == Some(if LastField(x) == Some(f) && Piece(x, f).Some? then Longer(Piece(x, f).value)
                                    else Slice(|Show(x)|, 1))
             && ('@' in y.auth) == ('@' in x.auth || t.ReqServerWithAt?)
    ensures Grows(connect, x, t, c)
  {
    var y := Add(x, t, c);
    SepBound(connect, y);
    PiecesPut(x, y, f);
    hide Add, TextOk, StateAfter, Show, LastField, Piece, Pieces;
  }

  lemma SchemaByte(connect: bool, x: Text, c: char)
    requires TextOk(connect, x) && ParseUrlChar(StateAfter(connect, x), c).ReqSchema?
    ensures !connect && x.sep == 0 && EndsAt(x, 1) && IsAlpha(c)
  {
  }

  lemma SchemaFits(connect: bool, x: Text, c: char)
    requires TextOk(connect, x) && Within(Pieces(x), |Show(x)|)
    requires ParseUrlChar(StateAfter(connect, x), c).ReqSchema?
    ensures Grows(connect, x, ReqSchema, c)
  {
    SchemaByte(connect, x, c);
    hide ParseUrlChar;
    var y := Add(x, ReqSchema, c);
    assert "://"[..0] == "";
    ShowEnds(x);
    ShowEnds(y);
    PiecesPut(x, y, UfSchema);
    hide Show, Pieces;
  }

  lemma SepByte(connect: bool, x: Text, c: char)
    requires TextOk(connect, x)
    requires var t := ParseUrlChar(StateAfter(connect, x), c);
             t.ReqSchemaSlash? || t.ReqSchemaSlashSlash? || t.ReqServerStart?
    ensures var t := ParseUrlChar(StateAfter(connect, x), c); var y := Add(x, t, c);
            && EndsAt(x, 1) && x.schema != "" && x.sep < 3 && y.sep == x.sep + 1 && c == "://"[x.sep]
            && StateAfter(connect, y) == t
  {
  }

  lemma SepFits(connect: bool, x: Text, c: char)
    requires TextOk(connect, x) && Within(Pieces(x), |Show(x)|)
    requires var t := ParseUrlChar(StateAfter(connect, x), c);
             t.ReqSchemaSlash? || t.ReqSchemaSlashSlash? || t.ReqServerStart?
    ensures Grows(connect, x, ParseUrlChar(StateAfter(connect, x), c), c)
  {
    SepByte(connect, x, c);
    var y := Add(x, ParseUrlChar(StateAfter(connect, x), c), c);
    hide ParseUrlChar, StateAfter;
    assert "://"[..y.sep] == "://"[..x.sep] + [c];
    ShowEnds(x);
    ShowEnds(y);
    PiecesSame(x, y);
    hide Show, Pieces;
  }

  lemma AuthByte(connect: bool, x: Text, c: char)
    requires TextOk(connect, x)
    requires var t := ParseUrlChar(StateAfter(connect, x), c); t.ReqServer? || t.ReqServerWithAt?
    ensures EndsAt(x, 2) && (x.sep == 3 || connect) && IsServerChar(c)
    ensures ParseUrlChar(StateAfter(connect, x), c) == if c == '@' then ReqServerWithAt else ReqServer
    ensures c == '@' && x.auth != "" ==> x.auth[|x.auth| - 1] != '@'
  {
  }

  lemma ServerSnoc(s: string, c: char)
    requires ServerOk(s) && IsServerChar(c) && (c == '@' && s != "" ==> s[|s| - 1] != '@')
    ensures ServerOk(s + [c])
  {
  }

  lemma AuthText(connect: bool, x: Text, c: char)
    requires TextOk(connect, x) && EndsAt(x, 2) && (x.sep == 3 || connect) && IsServerChar(c)
    requires c == '@' && x.auth != "" ==> x.auth[|x.auth| - 1] != '@'
    ensures var y := x.(auth := x.auth + [c]);
            && TextOk(connect, y) && StateAfter(connect, y) == (if c == '@' then ReqServerWithAt else ReqServer)
            && ('@' in y.auth) == ('@' in x.auth || c == '@')
  {
    ServerSnoc(x.auth, c);
    hide ServerOk, FragmentOk, IsAlpha, IsServerChar;
  }

  lemma AuthShow(x: Text, c: char)
    requires x.sep <= 3 && EndsAt(x, 2)
    ensures Show(x.(auth := x.auth + [c])) == Show(x) + [c] && |Show(x)| == |UpToHost(x)| + |x.auth|
  {
    var y := x.(auth := x.auth + [c]);
    ShowEnds(x);
    ShowEnds(y);
    hide Show;
    assert UpToHost(x) + x.auth + [c] == UpToHost(y) + y.auth;
  }

  lemma AuthFits(connect: bool, x: Text, c: char)
    requires TextOk(connect, x) && Within(Pieces(x), |Show(x)|)
    requires var t := ParseUrlChar(StateAfter(connect, x), c); t.ReqServer? || t.ReqServerWithAt?
    ensures Grows(connect, x, ParseUrlChar(StateAfter(connect, x), c), c)
  {
    AuthByte(connect, x, c);
    AuthText(connect, x, c);
    AuthShow(x, c);
    hide ParseUrlChar, Show, Pieces, TextOk, StateAfter, IsServerChar, UpToHost;
    UpToHostSame(x, x.(auth := x.auth + [c]));
    FieldGrows(connect, x, if c == '@' then ReqServerWithAt else ReqServer, c, UfHost);
  }

  lemma UpToHostSame(x: Text, y: Text)
    requires x.sep == y.sep <= 3 && x.schema == y.schema
    ensures UpToHost(x) == UpToHost(y)
  {
  }

  lemma PathByte(connect: bool, x: Text, c: char)
    requires TextOk(connect, x) && ParseUrlChar(StateAfter(connect, x), c).ReqPath?
    ensures EndsAt(x, 3) && (x.schema == "" || x.sep == 3) && IsUrlChar(c)
    ensures x.path == "" ==> c == '/' || (c == '*' && !connect && x.schema == "" && x.auth == "")
  {
  }

  lemma PathText(connect: bool, x: Text, c: char)
    requires TextOk(connect, x) && EndsAt(x, 3) && (x.schema == "" || x.sep == 3) && IsUrlChar(c)
    requires x.path == "" ==> c == '/' || (c == '*' && !connect && x.schema == "" && x.auth == "")
    ensures var y := x.(path := x.path + [c]); TextOk(connect, y) && StateAfter(connect, y) == ReqPath
  {
    hide ServerOk, FragmentOk, IsAlpha, IsUrlChar;
  }

  lemma PathShow(x: Text, c: char)
    requires x.sep <= 3 && EndsAt(x, 3)
    ensures Show(x.(path := x.path + [c])) == Show(x) + [c] && |Show(x)| == |UpToHost(x)| + |x.auth| + |x.path|
  {
    var y := x.(path := x.path + [c]);
    ShowEnds(x);
    ShowEnds(y);
    hide Show;
    assert UpToHost(x) + x.auth + x.path + [c] == UpToHost(y) + y.auth + y.path;
  }

  lemma PathFits(connect: bool, x: Text, c: char)
    requires TextOk(connect, x) && Within(Pieces(x), |Show(x)|)
    requires ParseUrlChar(StateAfter(connect, x), c).ReqPath?
    ensures Grows(connect, x, ReqPath, c)
  {
    PathByte(connect, x, c);
    PathText(connect, x, c);
    PathShow(x, c);
    hide ParseUrlChar, Show, Pieces, TextOk, StateAfter, UpToHost;
    UpToHostSame(x, x.(path := x.path + [c]));
    FieldGrows(connect, x, ReqPath, c, UfPath);
  }

  lemma QueryByte(connect: bool, x: Text, c: char)
    requires TextOk(connect, x)
    requires var t := ParseUrlChar(StateAfter(connect, x), c); t.ReqQueryStringStart? || t.ReqQueryString?
    ensures var t := ParseUrlChar(StateAfter(connect, x), c); EndsAt(x, 4) && if t.ReqQueryStringStart?
            then c == '?' && x.query.None? && (x.path != "" || x.sep == 3 || connect)
            else x.query.Some? && (IsUrlChar(c) || c == '?')
  {
  }

  lemma QueryMarkFits(connect: bool, x: Text, c: char)
    requires TextOk(connect, x) && Within(Pieces(x), |Show(x)|)
    requires ParseUrlChar(StateAfter(connect, x), c).ReqQueryStringStart?
    ensures Grows(connect, x, ReqQueryStringStart, c)
  {
    QueryByte(connect, x, c);
    hide ParseUrlChar;
    var y := Add(x, ReqQueryStringStart, c);
    ShowEnds(x);
    ShowEnds(y);
    PiecesSame(x, y);
    hide Show, Pieces, ServerOk, UpToPath;
    assert UpToPath(x) == UpToPath(y) by { UpToPathSame(x, y); }
  }

  lemma UpToPathSame(x: Text, y: Text)
    requires x.sep == y.sep <= 3 && x.schema == y.schema && x.auth == y.auth && x.path == y.path
    ensures UpToPath(x) == UpToPath(y)
  {
  }

  lemma QueryFits(connect: bool, x: Text, c: char)
    requires TextOk(connect, x) && Within(Pieces(x), |Show(x)|)
    requires ParseUrlChar(StateAfter(connect, x), c).ReqQueryString?
    ensures Grows(connect, x, ReqQueryString, c)
  {
    QueryByte(connect, x, c);
    QueryTextOk(connect, x, c);
    QueryShow(x, c);
    UpToPathSame(x, Add(x, ReqQueryString, c));
    hide ParseUrlChar, Show, Pieces, TextOk, StateAfter, UpToPath, UpToHost;
    FieldGrows(connect, x, ReqQueryString, c, UfQuery);
  }

  lemma QueryTextOk(connect: bool, x: Text, c: char)
    requires TextOk(connect, x) && EndsAt(x, 4) && x.query.Some? && (IsUrlChar(c) || c == '?')
    ensures var y := x.(query := Some(x.query.value + [c]));
            TextOk(connect, y) && StateAfter(connect, y) == ReqQueryString
  {
    hide ServerOk, FragmentOk, IsAlpha, IsUrlChar;
  }

  lemma QueryShow(x: Text, c: char)
    requires x.sep <= 3 && EndsAt(x, 4) && x.query.Some?
    ensures Show(x.(query := Some(x.query.value + [c]))) == Show(x) + [c]
    ensures |Show(x)| == |UpToPath(x)| + 1 + |x.query.value|
  {
    var y := x.(query := Some(x.query.value + [c]));
    ShowEnds(x);
    ShowEnds(y);
    UpToPathSame(x, y);
    hide Show, UpToPath;
    assert UpToPath(x) + QueryText(x.query) + [c] == UpToPath(y) + QueryText(y.query);
  }

  lemma FragmentByte(connect: bool, x: Text, c: char)
    requires TextOk(connect, x)
    requires var t := ParseUrlChar(StateAfter(connect, x), c); t.ReqFragmentStart? || t.ReqFragment?
    ensures if ParseUrlChar(StateAfter(connect, x), c).ReqFragmentStart?
            then EndsAt(x, 5) && c == '#' && (x.path != "" || x.query.Some?)
            else x.marks > 0 && (IsUrlChar(c) || c == '?' || (c == '#' && x.fragment != ""))
  {
  }

  lemma MarkFits(connect: bool, x: Text, c: char)
    requires TextOk(connect, x) && Within(Pieces(x), |Show(x)|)
    requires ParseUrlChar(StateAfter(connect, x), c).ReqFragmentStart?
    ensures Grows(connect, x, ReqFragmentStart, c)
  {
    FragmentByte(connect, x, c);
    hide ParseUrlChar;
    var y := Add(x, ReqFragmentStart, c);
    ShowEnds(x);
    ShowEnds(y);
    UpToPathSame(x, y);
    PiecesSame(x, y);
    hide Show, Pieces, ServerOk, UpToPath;
    assert Marks(y.marks) == Marks(x.marks) + [c];
    var front := UpToPath(x) + QueryText(x.query);
    assert front + Marks(x.marks) + [c] == front + Marks(y.marks);
  }

  lemma FragmentSnoc(s: string, c: char)
    requires FragmentOk(s) && (IsUrlChar(c) || c == '?' || (c == '#' && s != ""))
    ensures FragmentOk(s + [c])
  {
  }

  lemma FragmentShow(x: Text, y: Text, c: char)
    requires x.sep <= 3 && y == x.(fragment := x.fragment + [c])
    ensures Show(y) == Show(x) + [c]
  {
    UpToPathSame(x, y);
    hide UpToPath;
    var front := UpToPath(x) + QueryText(x.query) + Marks(x.marks);
    assert front + x.fragment + [c] == front + y.fragment;
  }

  lemma FragmentFits(connect: bool, x: Text, c: char)
    requires TextOk(connect, x) && Within(Pieces(x), |Show(x)|)
    requires ParseUrlChar(StateAfter(connect, x), c).ReqFragment?
    ensures Grows(connect, x, ReqFragment, c)
  {
    FragmentByte(connect, x, c);
    var y := Add(x, ReqFragment, c);
    FragmentText(connect, x, c);
    FragmentShow(x, y, c);
    assert |Show(x)| == |UpToPath(x)| + |QueryText(x.query)| + x.marks + |x.fragment|;
    hide ParseUrlChar, Show, Pieces, TextOk, StateAfter, UpToPath, UpToHost, QueryText;
    UpToPathSame(x, y);
    UpToHostSame(x, y);
    FieldGrows(connect, x, ReqFragment, c, UfFragment);
  }

  lemma FragmentText(connect: bool, x: Text, c: char)
    requires TextOk(connect, x) && x.marks > 0 && (IsUrlChar(c) || c == '?' || (c == '#' && x.fragment != ""))
    ensures var y := x.(fragment := x.fragment + [c]); TextOk(connect, y) && StateAfter(connect, y) == ReqFragment
  {
    FragmentSnoc(x.fragment, c);
    hide ServerOk, FragmentOk, IsAlpha, IsUrlChar;
  }

  // ---------------------------------------------------------------- the first pass reads exactly such texts

  /** The text before its last byte, and that byte. */
  function Front(x: Text): (Text, char)
    requires x.sep <= 3
  {
    if x.fragment != "" then (x.(fragment := x.fragment[..|x.fragment| - 1]), x.fragment[|x.fragment| - 1])
    else if x.marks > 0 then (x.(marks := x.marks - 1), '#')
    else if x.query.Some? then
      var q := x.query.value;
      if q == "" then (x.(query := None), '?') else (x.(query := Some(q[..|q| - 1])), q[|q| - 1])
    else if x.path != "" then (x.(path := x.path[..|x.path| - 1]), x.path[|x.path| - 1])
    else if x.auth != "" then (x.(auth := x.auth[..|x.auth| - 1]), x.auth[|x.auth| - 1])
    else if x.sep > 0 then (x.(sep := x.sep - 1), "://"[x.sep - 1])
    else if x.schema != "" then (x.(schema := x.schema[..|x.schema| - 1]), x.schema[|x.schema| - 1])
    else (x, '\0')
  }

  predicate Nothing(x: Text) {
    x == Text("", 0, "", "", None, 0, "")
  }

  ghost predicate Undone(connect: bool, x: Text)
    requires x.sep <= 3
  {
    var (y, c) := Front(x);
    var t := StateAfter(connect, x);
    TextOk(connect, y) && ParseUrlChar(StateAfter(connect, y), c) == t && !t.Dead? && Add(y, t, c) == x
  }

  lemma Undo(connect: bool, x: Text)
    requires TextOk(connect, x) && !Nothing(x)
    ensures Undone(connect, x)
  {
    hide Undone, TextOk, ParseUrlChar;
    assert x.sep <= 3 by { SepBound(connect, x); }
    if x.fragment != "" { UndoFragment(connect, x); }
    else if x.marks > 0 { UndoMarks(connect, x); }
    else if x.query.Some? { UndoQuery(connect, x); }
    else if x.path != "" { UndoPath(connect, x); }
    else if x.auth != "" { UndoAuth(connect, x); }
    else { UndoSchema(connect, x); }
  }

  lemma SepBound(connect: bool, x: Text)
    requires TextOk(connect, x)
    ensures x.sep <= 3
  {
  }

  lemma UndoFragment(connect: bool, x: Text)
    requires TextOk(connect, x) && x.fragment != ""
    ensures Undone(connect, x)
  {
    hide TextOk, StateAfter, ParseUrlChar;
    SepBound(connect, x);
    StateOfMarks(connect, x);
    Snoc(x.fragment);
    FrontOfFragment(connect, x);
  }

  lemma UndoMarks(connect: bool, x: Text)
    requires TextOk(connect, x) && x.fragment == "" && x.marks > 0
    ensures Undone(connect, x)
  {
    hide TextOk, StateAfter, ParseUrlChar;
    SepBound(connect, x);
    StateOfMarks(connect, x);
    FrontOfMarks(connect, x);
  }

  lemma StateOfMarks(connect: bool, x: Text)
    ensures x.fragment != "" ==> StateAfter(connect, x) == ReqFragment
    ensures x.fragment == "" && x.marks > 0 ==> StateAfter(connect, x) == ReqFragmentStart
  {
  }

  lemma FrontOfFragment(connect: bool, x: Text)
    requires TextOk(connect, x) && x.fragment != ""
    ensures var (y, c) := Front(x);
            && TextOk(connect, y)
            && StateAfter(connect, y) == (if |x.fragment| == 1 then ReqFragmentStart else ReqFragment)
            && ParseUrlChar(StateAfter(connect, y), c) == ReqFragment
  {
    FragmentFront(x.fragment);
    hide ServerOk, IsAlpha, QueryOk, FragmentOk;
  }

  lemma FrontOfMarks(connect: bool, x: Text)
    requires TextOk(connect, x) && x.fragment == "" && x.marks > 0
    ensures var (y, c) := Front(x);
            && TextOk(connect, y)
            && ParseUrlChar(StateAfter(connect, y), c) == ReqFragmentStart
  {
    hide ServerOk, IsAlpha, QueryOk;
  }

  lemma FragmentFront(s: string)
    requires FragmentOk(s) && s != ""
    ensures FragmentOk(s[..|s| - 1])
    ensures var c := s[|s| - 1]; IsUrlChar(c) || c == '?' || (c == '#' && |s| > 1)
  {
  }

  lemma UndoQuery(connect: bool, x: Text)
    requires TextOk(connect, x) && x.query.Some? && x.fragment == "" && x.marks == 0
    ensures Undone(connect, x)
  {
    hide TextOk, StateAfter, ParseUrlChar;
    SepBound(connect, x);
    QueryEnd(connect, x);
    FrontOfQuery(connect, x);
    if x.query.value != "" { Snoc(x.query.value); }
  }

  lemma QueryEnd(connect: bool, x: Text)
    requires x.query.Some? && x.fragment == "" && x.marks == 0
    ensures StateAfter(connect, x) == if x.query.value == "" then ReqQueryStringStart else ReqQueryString
  {
  }

  lemma FrontOfQuery(connect: bool, x: Text)
    requires TextOk(connect, x) && x.query.Some? && x.fragment == "" && x.marks == 0
    ensures var (y, c) := Front(x);
            && TextOk(connect, y)
            && ParseUrlChar(StateAfter(connect, y), c)
               == if x.query.value == "" then ReqQueryStringStart else ReqQueryString
  {
    hide ServerOk, IsAlpha, FragmentOk;
  }

  lemma UndoPath(connect: bool, x: Text)
    requires TextOk(connect, x) && x.path != "" && EndsAt(x, 3)
    ensures Undone(connect, x)
  {
    hide ServerOk, IsAlpha;
    Snoc(x.path);
  }

  lemma UndoAuth(connect: bool, x: Text)
    requires TextOk(connect, x) && x.auth != "" && EndsAt(x, 2)
    ensures Undone(connect, x)
  {
    hide TextOk, StateAfter, ParseUrlChar;
    SepBound(connect, x);
    AuthEnd(connect, x);
    FrontOfAuth(connect, x);
    Snoc(x.auth);
  }

  lemma AuthEnd(connect: bool, x: Text)
    requires x.auth != "" && EndsAt(x, 2)
    ensures StateAfter(connect, x) == if x.auth[|x.auth| - 1] == '@' then ReqServerWithAt else ReqServer
  {
  }

  lemma FrontOfAuth(connect: bool, x: Text)
    requires TextOk(connect, x) && x.auth != "" && EndsAt(x, 2)
    ensures var (y, c) := Front(x);
            && TextOk(connect, y)
            && ParseUrlChar(StateAfter(connect, y), c) == if c == '@' then ReqServerWithAt else ReqServer
  {
    var (y, c) := Front(x);
    ServerFront(x.auth);
    assert |x.auth| > 1 ==> y.auth[|y.auth| - 1] == x.auth[|x.auth| - 2];
    hide ServerOk, IsAlpha, FragmentOk;
    assert TextOk(connect, y);
    assert var s := StateAfter(connect, y); s.ReqServerStart? || s.ReqServer? || (s.ReqServerWithAt? && c != '@');
    hide TextOk, StateAfter;
    ServerByte(StateAfter(connect, y), c);
  }

  lemma ServerByte(s: State, c: char)
    requires (s.ReqServerStart? || s.ReqServer? || (s.ReqServerWithAt? && c != '@')) && IsServerChar(c)
    ensures ParseUrlChar(s, c) == if c == '@' then ReqServerWithAt else ReqServer
  {
  }

  lemma ServerFront(s: string)
    requires ServerOk(s) && s != ""
    ensures ServerOk(s[..|s| - 1]) && IsServerChar(s[|s| - 1])
    ensures |s| > 1 ==> !(s[|s| - 2] == '@' && s[|s| - 1] == '@')
  {
  }

  lemma UndoSchema(connect: bool, x: Text)
    requires TextOk(connect, x) && !Nothing(x) && EndsAt(x, 1)
    ensures Undone(connect, x)
  {
    hide TextOk, Undone;
    if x.sep == 0 { UndoLetter(connect, x); } else { UndoSep(connect, x); }
  }

  lemma UndoLetter(connect: bool, x: Text)
    requires TextOk(connect, x) && !Nothing(x) && EndsAt(x, 1) && x.sep == 0
    ensures Undone(connect, x)
  {
    Snoc(x.schema);
  }

  lemma UndoSep(connect: bool, x: Text)
    requires TextOk(connect, x) && EndsAt(x, 1) && x.sep > 0
    ensures Undone(connect, x)
  {
  }

  lemma EmptyText(connect: bool)
    ensures var x := Text("", 0, "", "", None, 0, "");
            TextOk(connect, x) && Show(x) == "" && FirstPass(connect, "") == CutOf(connect, x)
  {
    assert Pieces(Text("", 0, "", "", None, 0, "")) == map[];
  }

  /** One step of the first pass, over a text. */
  lemma FirstPassStep(connect: bool, x: Text, c: char)
    requires TextOk(connect, x) && !StateAfter(connect, x).Dead?
    requires !ParseUrlChar(StateAfter(connect, x), c).Dead?
    requires FirstPass(connect, Show(x)) == CutOf(connect, x)
    ensures var y := Add(x, ParseUrlChar(StateAfter(connect, x), c), c);
            TextOk(connect, y) && Show(y) == Show(x) + [c] && FirstPass(connect, Show(y)) == CutOf(connect, y)
  {
    ByteFits(connect, x, c);
    hide TextOk, ParseUrlChar, Show, Pieces, StateAfter, Add, Enter;
    var s := Show(x) + [c];
    assert s[..|s| - 1] == Show(x) && s[|s| - 1] == c;
  }

  lemma Alive(connect: bool, x: Text)
    ensures !StateAfter(connect, x).Dead?
  {
  }

  lemma {:induction false} FirstPassOf(connect: bool, x: Text)
    requires TextOk(connect, x)
    ensures FirstPass(connect, Show(x)) == CutOf(connect, x)
    decreases |x.schema| + x.sep + |x.auth| + |x.path| + |QueryText(x.query)| + x.marks + |x.fragment|
  {
    hide TextOk, ParseUrlChar, Show, Pieces, StateAfter, Add, FirstPass;
    if Nothing(x) {
      EmptyText(connect);
    } else {
      SepBound(connect, x);
      Undo(connect, x);
      var (y, c) := Front(x);
      SepBound(connect, y);
      FirstPassOf(connect, y);
      Alive(connect, y);
      FirstPassStep(connect, y, c);
    }
  }

  lemma {:induction false} FirstPassReads(connect: bool, buf: string) returns (x: Text)
    requires !FirstPass(connect, buf).s.Dead?
    ensures TextOk(connect, x) && Show(x) == buf && FirstPass(connect, buf) == CutOf(connect, x)
    decreases |buf|
  {
    hide TextOk, ParseUrlChar, Show, Pieces, StateAfter, Add;
    if buf == "" {
      x := Text("", 0, "", "", None, 0, "");
      EmptyText(connect);
    } else {
      var n := |buf| - 1;
      var y := FirstPassReads(connect, buf[..n]);
      FirstPassStep(connect, y, buf[n]);
      x := Add(y, ParseUrlChar(StateAfter(connect, y), buf[n]), buf[n]);
      assert buf == buf[..n] + [buf[n]];
    }
  }
}
