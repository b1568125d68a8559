/** The field-name matcher equals string comparison. */
module Names {
  import opened Chars
  import opened Parser
  import opened Trace
  import opened Split

  /** A field name in lower case, as the table `tokens` gives it. */
  function LowerName(name: string): (t: string)
    ensures |t| == |name| && forall i :: 0 <= i < |name| ==> t[i] == Token(name[i])
  {
    seq(|name|, i requires 0 <= i < |name| => Token(name[i]))
  }

  predicate IsName(name: string) {
    name != "" && forall i :: 0 <= i < |name| ==> Token(name[i]) != '\0'
  }

  /** What a whole field name means. */
  function Meaning(t: string): HeaderState {
    if t == "connection" || t == "proxy-connection" then Connection
    else if t == "content-length" then ContentLength
    else if t == "transfer-encoding" then TransferEncoding
    else if t == "upgrade" then Upgrade
    else General
  }

  /** The matcher state after the lowercased bytes t: a keyword, a prefix of one, or neither. */
  function Matcher(t: string): HeaderState {
    if Meaning(t) != General then Meaning(t)
    else if t <= "con" then if |t| == 1 then MatchC else if |t| == 2 then MatchCO else MatchCON
    else if t <= "connection" then MatchingConnection
    else if t <= "content-length" then MatchingContentLength
    else if t <= "proxy-connection" then MatchingProxyConnection
    else if t <= "transfer-encoding" then MatchingTransferEncoding
    else if t <= "upgrade" then MatchingUpgrade
    else General
  }

  lemma FirstMatches(c: char)
    requires c != '\0'
    ensures FieldStart(c) == Matcher([c])
  {
    assert "" + [c] == [c];
    WordsApart([c]);
    Extends("", c, "con");
    Extends("", c, "connection");
    Extends("", c, "content-length");
    Extends("", c, "proxy-connection");
    Extends("", c, "transfer-encoding");
    Extends("", c, "upgrade");
  }

  /** Extending a string that is a prefix of a word. */
  lemma Extends(t: string, c: char, word: string)
    requires c != '\0'
    ensures t + [c] <= word <==> t <= word && CharAt(word, |t|) == c
  {
    if t <= word && CharAt(word, |t|) == c { assert word[..|t| + 1] == t + [c]; }
    if t + [c] <= word { assert (t + [c])[..|t|] == t; assert t <= word; assert word[|t|] == (t + [c])[|t|]; }
  }

  /** No string is a prefix of two of the words, but for the common prefix "con". */
  lemma WordsApart(t: string)
    requires t != ""
    ensures t <= "connection" || t <= "content-length" ==> t[0] == 'c'
    ensures t <= "proxy-connection" ==> t[0] == 'p'
    ensures t <= "transfer-encoding" ==> t[0] == 't'
    ensures t <= "upgrade" ==> t[0] == 'u'
    ensures t <= "con" ==> t <= "connection" && t <= "content-length"
    ensures |t| <= 3 && t <= "connection" ==> t <= "con"
    ensures |t| <= 3 && t <= "content-length" ==> t <= "con"
    ensures |t| > 3 && t <= "connection" ==> t[3] == 'n'
    ensures |t| > 3 && t <= "content-length" ==> t[3] == 't'
  {
    if |t| <= 3 {
      assert "connection"[..3] == "con" && "content-length"[..3] == "con";
    }
  }

  /** One further byte. */
  lemma NextMatches(t: string, c: char)
    requires t != "" && c != '\0'
    ensures FieldMatch(Matcher(t), |t|, c) == Matcher(t + [c])
  {
    hide FieldMatch, Matcher;
    if t[0] == 'c' { NextOfC(t, c); } else { NextOfOthers(t, c); }
  }

  lemma NextOfC(t: string, c: char)
    requires t != "" && t[0] == 'c' && c != '\0'
    ensures FieldMatch(Matcher(t), |t|, c) == Matcher(t + [c])
  {
    WordsApart(t);
    WordsApart(t + [c]);
    Extends(t, c, "con");
    Extends(t, c, "connection");
    Extends(t, c, "content-length");
  }

  lemma NextOfOthers(t: string, c: char)
    requires t != "" && t[0] != 'c' && c != '\0'
    ensures FieldMatch(Matcher(t), |t|, c) == Matcher(t + [c])
  {
    WordsApart(t);
    WordsApart(t + [c]);
    Extends(t, c, "proxy-connection");
    Extends(t, c, "transfer-encoding");
    Extends(t, c, "upgrade");
  }

  /** The parser inside a field name of which the bytes s were read from q on. */
  ghost predicate Inside(q: Parser, s: string, p: Parser) {
    && p == q.(nread := q.nread + |s|, state := HeaderField, headerState := Matcher(LowerName(s)), index := p.index)
    && (FieldCounts(p.headerState) ==> p.index == |s| - 1)
  }

  lemma FieldStartStep(p: Parser, ch: char)
    requires p.state.HeaderFieldStart? && p.nread < HTTP_MAX_HEADER_SIZE && Token(ch) != '\0'
    ensures Step(p, ch) == Emit(p.(nread := p.nread + 1, index := 0, state := HeaderField,
                                   headerState := FieldStart(Token(ch))), Byte(Name, ch))
  {
    assert Micro(Count(p), ch) == AtFieldStart(Count(p), ch);
  }

  lemma FieldStep(p: Parser, ch: char)
    requires p.state.HeaderField? && p.nread < HTTP_MAX_HEADER_SIZE && Token(ch) != '\0'
    ensures var i := if FieldCounts(p.headerState) then p.index + 1 else p.index;
            Step(p, ch) == Emit(p.(nread := p.nread + 1, index := i,
                                   headerState := FieldMatch(p.headerState, i, Token(ch))), Byte(Name, ch))
  {
    hide FieldMatch;
    assert Micro(Count(p), ch) == AtField(Count(p), ch);
  }

  lemma FieldMatchIgnoresIndex(h: HeaderState, i: nat, j: nat, c: char)
    requires !FieldCounts(h)
    ensures FieldMatch(h, i, c) == FieldMatch(h, j, c)
  {
  }

  lemma {:induction false} RunName(p: Parser, name: string)
    requires p.state.HeaderFieldStart? && IsName(name) && p.nread + |name| <= HTTP_MAX_HEADER_SIZE
    ensures var r := Run(p, 0, name);
            && r == Result(r.p, |name|, Bytes(Name, name), |name|, Advance)
            && Inside(p, name, r.p)
    decreases |name|
  {
    hide Step, Run, Matcher, FieldMatch, FieldStart;
    var n := |name| - 1;
    var c := name[n];
    if n == 0 {
      FieldStartStep(p, c);
      FirstMatches(Token(c));
      RunOne(p, 0, c);
      assert name == [c] && LowerName(name) == [Token(c)];
    } else {
      var s := name[..n];
      RunName(p, s);
      var q := Run(p, 0, s).p;
      FieldStep(q, c);
      RunSnoc(p, 0, s, c);
      NextMatches(LowerName(s), Token(c));
      assert name == s + [c] && LowerName(name) == LowerName(s) + [Token(c)];
      assert Bytes(Name, name) == Bytes(Name, s) + [Byte(Name, c)];
      if !FieldCounts(q.headerState) {
        FieldMatchIgnoresIndex(q.headerState, q.index, n, Token(c));
        NeverCountsAgain(q.headerState, n, Token(c));
      }
    }
  }

  lemma NeverCountsAgain(h: HeaderState, i: nat, c: char)
    requires !FieldCounts(h)
    ensures !FieldCounts(FieldMatch(h, i, c))
  {
  }

  /** Lower-casing a name compares it with a word in any case. */
  lemma NameIs(name: string, word: string)
    requires forall i | 0 <= i < |word| :: 'a' <= word[i] <= 'z' || word[i] == '-'
    ensures LowerName(name) == word <==> InAnyCase(name, word)
  {
    var t := LowerName(name);
    if |name| == |word| {
      forall i | 0 <= i < |name| ensures t[i] == word[i] <==> SameLetter(name[i], word[i]) {
        LetterIs(name[i], word[i]);
      }
      assert t == word <==> forall i | 0 <= i < |name| :: t[i] == word[i];
    }
  }

  lemma LetterIs(c: char, k: char)
    requires 'a' <= k <= 'z' || k == '-'
    ensures Token(c) == k <==> SameLetter(c, k)
  {
  }

  /** What a name means, word by word. */
  lemma MeaningIs(name: string)
    ensures var h := Meaning(LowerName(name));
            && (h.Connection? <==> InAnyCase(name, "connection") || InAnyCase(name, "proxy-connection"))
            && (h.ContentLength? <==> InAnyCase(name, "content-length"))
            && (h.TransferEncoding? <==> InAnyCase(name, "transfer-encoding"))
            && (h.Upgrade? <==> InAnyCase(name, "upgrade"))
  {
    hide InAnyCase, LowerName;
    NameIs(name, "connection");
    NameIs(name, "proxy-connection");
    NameIs(name, "content-length");
    NameIs(name, "transfer-encoding");
    NameIs(name, "upgrade");
  }

  /** At the ':' that ends a field name, `header_state` names a header exactly when the name is that word, in
      any case. */
  lemma NameExact(p: Parser, name: string)
    requires p.state.HeaderFieldStart? && IsName(name) && p.nread + |name| + 1 <= HTTP_MAX_HEADER_SIZE
    ensures var r := Run(p, 0, name + ":"); var h := r.p.headerState;
            && r == Result(r.p, |name| + 1, Bytes(Name, name), 0, Advance) && r.p.state.HeaderValueStart?
            && (h.Connection? <==> InAnyCase(name, "connection") || InAnyCase(name, "proxy-connection"))
            && (h.ContentLength? <==> InAnyCase(name, "content-length"))
            && (h.TransferEncoding? <==> InAnyCase(name, "transfer-encoding"))
            && (h.Upgrade? <==> InAnyCase(name, "upgrade"))
  {
    hide Step, Run, InAnyCase, LowerName, Matcher, Meaning;
    RunNameColon(p, name);
    MeaningIs(name);
    MatcherIsMeaning(LowerName(name));
  }

  lemma MatcherIsMeaning(t: string)
    ensures Matcher(t).Connection? <==> Meaning(t).Connection?
    ensures Matcher(t).ContentLength? <==> Meaning(t).ContentLength?
    ensures Matcher(t).TransferEncoding? <==> Meaning(t).TransferEncoding?
    ensures Matcher(t).Upgrade? <==> Meaning(t).Upgrade?
  {
  }

  /** A field name and its colon. */
  lemma RunNameColon(p: Parser, name: string)
    requires p.state.HeaderFieldStart? && IsName(name) && p.nread + |name| + 1 <= HTTP_MAX_HEADER_SIZE
    ensures var r := Run(p, 0, name + ":");
            && r == Result(r.p, |name| + 1, Bytes(Name, name), 0, Advance)
            && r.p == p.(nread := p.nread + |name| + 1, state := HeaderValueStart,
                         headerState := Matcher(LowerName(name)), index := r.p.index)
  {
    hide Step, Run, Matcher;
    RunName(p, name);
    RunSnoc(p, 0, name, ':');
    ColonStep(Run(p, 0, name).p);
  }

  lemma ColonStep(p: Parser)
    requires p.state.HeaderField? && p.nread < HTTP_MAX_HEADER_SIZE
    ensures Step(p, ':') == Move(p.(nread := p.nread + 1, state := HeaderValueStart))
  {
    assert Micro(Count(p), ':') == AtField(Count(p), ':');
  }
}
