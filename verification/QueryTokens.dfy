/** The tokenizer of the filter language (internal/core/query.go, tokenizeQuery). */
module QueryTokens {

  predicate Skipped(c: char) { c == ' ' || c == '\t' || c == '\n' }

  predicate Delimiter(c: char) { Skipped(c) || c == '(' || c == ')' || c == '|' || c == '!' }

  /** strings.EqualFold(tok, "or") */
  predicate IsOr(tok: string) {
    |tok| == 2 && (tok[0] == 'o' || tok[0] == 'O') && (tok[1] == 'r' || tok[1] == 'R')
  }

  /** Where a regexp body stops: at a slash or a blank that is not escaped, or at the end. */
  function RegexStop(s: string, j: nat): (k: nat)
    ensures j <= k && (j <= |s| ==> k <= |s|)
    decreases |s| - j
  {
    if |s| <= j then j
    else if s[j] == '\\' && j + 1 < |s| then RegexStop(s, j + 2)
    else if s[j] == '/' || s[j] == ' ' || s[j] == '\t' then j
    else RegexStop(s, j + 1)
  }

  function QuoteStop(s: string, j: nat): (k: nat)
    ensures j <= k && (j <= |s| ==> k <= |s|)
    decreases |s| - j
  {
    if |s| <= j || s[j] == '"' then j else QuoteStop(s, j + 1)
  }

  function WordStop(s: string, j: nat): (k: nat)
    ensures j <= k && (j <= |s| ==> k <= |s|)
    ensures j < |s| && !Delimiter(s[j]) ==> j < k
    decreases |s| - j
  {
    if |s| <= j || Delimiter(s[j]) then j else WordStop(s, j + 1)
  }

  /** What the first token of `s` is, if the first rune starts one, and how many runes it takes. */
  datatype Piece = Piece(toks: seq<string>, len: nat)

  function FirstPiece(s: string): (p: Piece)
    requires s != []
    ensures 1 <= p.len <= |s|
  {
    var c := s[0];
    if Skipped(c) then Piece([], 1)
    else if c == '(' || c == ')' || c == '|' || c == '!' then Piece([[c]], 1)
    else if c == '/' then
      var j := RegexStop(s, 1);
      var k := if j < |s| && s[j] == '/' then j + 1 else j;
      Piece([s[..k]], k)
    else if c == '"' then
      var j := QuoteStop(s, 1);
      Piece([s[1..j]], if j < |s| then j + 1 else j)
    else
      var j := WordStop(s, 0);
      Piece([if IsOr(s[..j]) then "|" else s[..j]], j)
  }

  function Tokens(s: string): seq<string>
    decreases |s|
  {
    if s == [] then [] else FirstPiece(s).toks + Tokens(s[FirstPiece(s).len..])
  }

  /** tokenizeQuery: one pass over the runes with an inner scan for each kind of token. */
  method Tokenize(rs: string) returns (out: seq<string>)
    ensures out == Tokens(rs)
  {
    hide FirstPiece, Tokens;
    out := [];
    var i := 0;
    assert rs[0..] == rs;
    while i < |rs|
      invariant i <= |rs|
      invariant out + Tokens(rs[i..]) == Tokens(rs)
    {
      var toks, j := ScanPiece(rs, i);
      Advance(rs, i, out);
      out := out + toks;
      i := j;
    }
    assert rs[i..] == [];
    NoTokens();
  }

  lemma NoTokens()
    ensures Tokens([]) == []
  {
  }

  /** One turn of the loop: what starts at i, and where it ends. */
  method ScanPiece(rs: string, i: nat) returns (toks: seq<string>, j: nat)
    requires i < |rs|
    ensures i < j <= |rs| && Piece(toks, j - i) == FirstPiece(rs[i..])
  {
    var c := rs[i];
    ghost var s := rs[i..];
    if Skipped(c) {
      return [], i + 1;
    }
    if c == '(' || c == ')' || c == '|' || c == '!' {
      return [[c]], i + 1;
    }
    if c == '/' {
      j := ScanRegex(rs, i);
      if j < |rs| && rs[j] == '/' {
        j := j + 1;
      }
      toks := [rs[i..j]];
      assert rs[i..j] == s[..j - i];
    } else if c == '"' {
      j := ScanQuote(rs, i);
      toks := [rs[i + 1..j]];
      assert rs[i + 1..j] == s[1..j - i];
      if j < |rs| {
        j := j + 1;
      }
    } else {
      j := ScanWord(rs, i);
      var tok := rs[i..j];
      assert tok == s[..j - i];
      if IsOr(tok) {
        tok := "|";
      }
      toks := [tok];
    }
  }

  lemma Advance(rs: string, i: nat, out: seq<string>)
    requires i < |rs|
    ensures var p := FirstPiece(rs[i..]);
            out + Tokens(rs[i..]) == out + p.toks + Tokens(rs[i + p.len..])
  {
    var p := FirstPiece(rs[i..]);
    assert rs[i..][p.len..] == rs[i + p.len..];
    hide FirstPiece;
    assert Tokens(rs[i..]) == p.toks + Tokens(rs[i + p.len..]);
  }

  method ScanRegex(rs: string, i: nat) returns (j: nat)
    requires i < |rs|
    ensures j == i + RegexStop(rs[i..], 1) && j <= |rs|
  {
    j := i + 1;
    while j < |rs|
      invariant i < j <= |rs| && RegexStop(rs[i..], j - i) == RegexStop(rs[i..], 1)
    {
      if rs[j] == '\\' && j + 1 < |rs| {
        j := j + 2;
        continue;
      }
      if rs[j] == '/' || rs[j] == ' ' || rs[j] == '\t' {
        break;
      }
      j := j + 1;
    }
  }

  method ScanQuote(rs: string, i: nat) returns (j: nat)
    requires i < |rs|
    ensures j == i + QuoteStop(rs[i..], 1) && j <= |rs|
  {
    j := i + 1;
    while j < |rs| && rs[j] != '"'
      invariant i < j <= |rs| && QuoteStop(rs[i..], j - i) == QuoteStop(rs[i..], 1)
    {
      j := j + 1;
    }
  }

  method ScanWord(rs: string, i: nat) returns (j: nat)
    requires i < |rs|
    ensures j == i + WordStop(rs[i..], 0) && j <= |rs|
  {
    j := i;
    while j < |rs| && !Delimiter(rs[j])
      invariant i <= j <= |rs| && WordStop(rs[i..], j - i) == WordStop(rs[i..], 0)
    {
      j := j + 1;
    }
  }
}
