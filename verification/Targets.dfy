/** The request targets that the parser accepts, as a grammar. */
module Targets {
  import opened Chars
  import opened Options
  import opened Parser
  import opened Tables
  import opened Urls
  import opened UrlGrammar
  import opened RequestLines

  /** A text behind which a request line can go on: more than a schema and its "://". */
  predicate IsTarget(connect: bool, x: Text) {
    TextOk(connect, x) && x.sep <= 3 && (x.auth != "" || x.path != "" || x.query.Some?)
  }

  lemma TargetExact(m: Method, t: string)
    ensures TargetOk(m, t) <==> exists x: Text :: IsTarget(m.CONNECT?, x) && Show(x) == t
  {
    hide TextOk, Show, FirstPass;
    var c := m.CONNECT?;
    if TargetOk(m, t) {
      RestIsAlive(PassState(m, t));
      var x := FirstPassReads(c, t);
      StateEnds(c, x);
      assert IsTarget(c, x);
    }
    forall x: Text | IsTarget(c, x) && Show(x) == t ensures TargetOk(m, t) {
      FirstPassOf(c, x);
      StateEnds(c, x);
      ShowSome(c, x);
    }
  }

  lemma StateEnds(connect: bool, x: Text)
    requires TextOk(connect, x)
    ensures x.sep <= 3 && (UrlRest(StateAfter(connect, x)) <==> IsTarget(connect, x))
  {
  }

  lemma ShowSome(connect: bool, x: Text)
    requires IsTarget(connect, x)
    ensures Show(x) != ""
  {
  }

  /** A path: '/' and the bytes that a path can have. */
  predicate IsPath(path: string) {
    path != "" && path[0] == '/' && forall i | 0 <= i < |path| :: PathChar(path[i])
  }

  lemma PathIsTarget(path: string)
    requires IsPath(path)
    ensures TargetOk(POST, path)
  {
    var x := Text("", 0, "", path, None, 0, "");
    forall i | 0 <= i < |path| ensures IsUrlChar(path[i]) {
      PathBytes(path[i]);
    }
    assert Show(x) == path;
    assert IsTarget(false, x);
    TargetExact(POST, path);
  }
}
