/** What each kind of token is read from, ended or not (internal/core/query.go, tokenizeQuery). */
module QueryScan {
  import opened QueryTokens

  lemma {:induction false} WordEnds(w: string, rest: string, j: nat)
    requires j <= |w| && (forall i :: 0 <= i < |w| ==> !Delimiter(w[i])) && (rest == "" || Delimiter(rest[0]))
    ensures WordStop(w + rest, j) == |w|
    decreases |w| - j
  {
    if j < |w| {
      WordEnds(w, rest, j + 1);
    }
  }

  /** A word goes up to a blank, a parenthesis, a bar or a bang; `or` in any letter case is a bar. */
  lemma WordToken(w: string, rest: string)
    requires w != "" && w[0] != '/' && w[0] != '"'
    requires (forall i :: 0 <= i < |w| ==> w[i] !in " \t\n()|!") && (rest == "" || rest[0] in " \t\n()|!")
    ensures Tokens(w + rest) == [if w == "or" || w == "OR" || w == "Or" || w == "oR" then "|" else w] + Tokens(rest)
  {
    WordEnds(w, rest, 0);
    assert (w + rest)[..|w|] == w && (w + rest)[|w|..] == rest;
    hide WordStop;
  }

  lemma {:induction false} QuoteEnds(q: string, rest: string, j: nat)
    requires j <= |q| && '"' !in q && (rest == "" || rest[0] == '"')
    ensures QuoteStop("\"" + (q + rest), 1 + j) == 1 + |q|
    decreases |q| - j
  {
    if j < |q| {
      QuoteEnds(q, rest, j + 1);
    }
  }

  /** A quoted string is taken as it stands, up to the next quote, or to the end where there is none. */
  lemma QuoteToken(q: string, rest: string)
    requires '"' !in q
    ensures Tokens("\"" + (q + ("\"" + rest))) == [q] + Tokens(rest)
    ensures Tokens("\"" + (q + "")) == [q]
  {
    var s := "\"" + (q + ("\"" + rest));
    QuoteEnds(q, "\"" + rest, 0);
    assert s[1..1 + |q|] == q && s[2 + |q|..] == rest;
    var t := "\"" + (q + "");
    QuoteEnds(q, "", 0);
    assert t[1..1 + |q|] == q && t[1 + |q|..] == "";
    hide QuoteStop;
    assert FirstPiece(t) == Piece([q], 1 + |q|);
    NoTokens();
  }

  /** A pattern body: slashes and blanks only behind a backslash. */
  predicate PatternBody(p: string) {
    if p == "" then true
    else if p[0] == '\\' then 2 <= |p| && PatternBody(p[2..])
    else p[0] != '/' && p[0] != ' ' && p[0] != '\t' && PatternBody(p[1..])
  }

  lemma {:induction false} PatternEnds(p: string, rest: string, j: nat)
    requires j <= |p| && PatternBody(p[j..]) && (rest == "" || rest[0] == '/' || rest[0] == ' ' || rest[0] == '\t')
    ensures RegexStop("/" + (p + rest), 1 + j) == 1 + |p|
    decreases |p| - j
  {
    if j < |p| {
      var s := "/" + (p + rest);
      assert s[1 + j] == p[j];
      if p[j] == '\\' {
        assert p[j..][2..] == p[j + 2..];
        PatternEnds(p, rest, j + 2);
      } else {
        assert p[j..][1..] == p[j + 1..];
        PatternEnds(p, rest, j + 1);
      }
    }
  }

  lemma Unfold(s: string, tok: string, k: nat)
    requires 1 <= k <= |s| && FirstPiece(s) == Piece([tok], k)
    ensures Tokens(s) == [tok] + Tokens(s[k..])
  {
    hide FirstPiece;
  }

  lemma PatternEnded(p: string, rest: string)
    requires PatternBody(p)
    ensures Tokens("/" + (p + ("/" + rest))) == ["/" + p + "/"] + Tokens(rest)
  {
    hide RegexStop, PatternBody, Tokens;
    assert p[0..] == p;
    var s := "/" + (p + ("/" + rest));
    PatternEnds(p, "/" + rest, 0);
    assert s[..2 + |p|] == "/" + p + "/" && s[2 + |p|..] == rest;
    Unfold(s, "/" + p + "/", 2 + |p|);
  }

  lemma PatternCut(p: string, rest: string)
    requires PatternBody(p) && (rest == "" || rest[0] == ' ' || rest[0] == '\t')
    ensures Tokens("/" + (p + rest)) == ["/" + p] + Tokens(rest)
  {
    hide RegexStop, PatternBody, Tokens;
    assert p[0..] == p;
    var t := "/" + (p + rest);
    PatternEnds(p, rest, 0);
    assert t[..1 + |p|] == "/" + p && t[1 + |p|..] == rest;
    Unfold(t, "/" + p, 1 + |p|);
  }

  /** A pattern keeps its slashes; one that a blank or the end cuts short has no second slash. */
  lemma PatternToken(p: string, rest: string)
    requires PatternBody(p)
    ensures Tokens("/" + (p + ("/" + rest))) == ["/" + p + "/"] + Tokens(rest)
    ensures rest == "" || rest[0] == ' ' || rest[0] == '\t' ==> Tokens("/" + (p + rest)) == ["/" + p] + Tokens(rest)
  {
    hide Tokens, PatternBody;
    PatternEnded(p, rest);
    if rest == "" || rest[0] == ' ' || rest[0] == '\t' {
      PatternCut(p, rest);
    }
  }

  /** Blanks are skipped, and the four marks stand for themselves wherever they are. */
  lemma MarkToken(c: char, rest: string)
    ensures c in " \t\n" ==> Tokens([c] + rest) == Tokens(rest)
    ensures c in "()|!" ==> Tokens([c] + rest) == [[c]] + Tokens(rest)
  {
    assert ([c] + rest)[1..] == rest;
  }
}
