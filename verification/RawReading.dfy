/** Raw messages read line by line: every part of a message stands in its place (internal/core/flow.go). */
module RawReading {
  import opened Text
  import opened Unicode
  import opened Editing
  import opened RawMessage

  const BLANK: Byte := 32
  const COLON: Byte := 58

  // ---- cutting at a byte --------------------------------------------------

  lemma FirstAt(s: Bytes, c: Byte, k: nat)
    requires k < |s| && s[k] == c && c !in s[..k]
    ensures Index(s, [c]) == k
  {
    assert s[k..k + 1] == [c] && OccursAt(s, [c], k);
    forall j: nat | j < k
      ensures !OccursAt(s, [c], j)
    {
      assert s[..k][j] == s[j] && s[j..j + 1] == [s[j]];
    }
  }

  lemma NowhereIn(s: Bytes, c: Byte)
    requires c !in s
    ensures Index(s, [c]) == -1 && Split(s, [c]) == [s]
  {
    forall j: nat
      ensures !OccursAt(s, [c], j)
    {
      assert j < |s| ==> s[j..j + 1] == [s[j]];
    }
  }

  lemma SplitOff(x: Bytes, c: Byte, rest: Bytes)
    requires c !in x
    ensures Split(x + [c] + rest, [c]) == [x] + Split(rest, [c])
  {
    var s := x + [c] + rest;
    assert s[..|x|] == x && s[|x| + 1..] == rest;
    FirstAt(s, c, |x|);
    hide Index;
  }

  // ---- lines --------------------------------------------------------------

  lemma {:induction false} HeadCons(ls: seq<Bytes>)
    requires ls != []
    ensures Head(ls) == ls[0] + [NL] + Head(ls[1..])
  {
    hide Head;
    var n := |ls| - 1;
    if n == 0 {
      assert ls == [ls[0]] && ls[1..] == [];
      HeadOne(ls[0]);
      NoHead();
    } else {
      HeadCons(ls[..n]);
      var mid := ls[..n][1..];
      assert ls == ls[..n] + [ls[n]] && ls[1..] == mid + [ls[n]];
      HeadSnoc(ls[..n], ls[n]);
      HeadSnoc(mid, ls[n]);
    }
  }

  /** A head falls into its lines, in order. */
  lemma {:induction false} LinesRead(ls: seq<Bytes>)
    requires forall i :: 0 <= i < |ls| ==> NL !in ls[i]
    ensures Split(Head(ls), [NL]) == ls + [[]]
  {
    hide Head, Split;
    if ls == [] {
      NoHead();
      NowhereIn([], NL);
    } else {
      HeadCons(ls);
      SplitOff(ls[0], NL, Head(ls[1..]));
      LinesRead(ls[1..]);
      assert [ls[0]] + (ls[1..] + [[]]) == ls + [[]];
    }
  }

  lemma NoHead()
    ensures Head([]) == []
  {
  }

  // ---- start lines --------------------------------------------------------

  lemma BlankIs()
    ensures Encoded(" ") == [BLANK]
  {
    assert " "[1..] == "";
  }

  lemma VersionIs()
    ensures BLANK !in Encoded("HTTP/1.1")
  {
    hide Encoded;
    EncodedHasAscii("HTTP/1.1", BLANK);
  }

  /** The words of a request line are the method, the path and the version. */
  lemma RequestLineReads(f: Flow)
    requires BLANK !in f.method_ && BLANK !in f.path
    ensures Split(RequestLine(f), [BLANK]) == [f.method_, if f.path == [] then Encoded("/") else f.path, Encoded("HTTP/1.1")]
  {
    hide Encoded, Split;
    var path := if f.path == [] then Encoded("/") else f.path;
    EncodedHasAscii("/", BLANK);
    BlankIs();
    VersionIs();
    EncodedConcat(" ", "HTTP/1.1");
    assert " " + "HTTP/1.1" == " HTTP/1.1";
    var v := Encoded("HTTP/1.1");
    assert RequestLine(f) == f.method_ + [BLANK] + (path + [BLANK] + v);
    SplitOff(f.method_, BLANK, path + [BLANK] + v);
    SplitOff(path, BLANK, v);
    NowhereIn(v, BLANK);
  }

  /** A status line is the version, the status as a number and the reason, one blank between them. */
  lemma StatusLineReads(f: Flow, text: nat -> string)
    ensures var reason := if f.reason == [] then Encoded(text(f.status)) else f.reason;
            StatusLine(f, text)
            == Encoded("HTTP/1.1") + [BLANK] + Encoded(Itoa(if f.status == 0 then 200 else f.status)) + [BLANK] + reason
  {
    hide Encoded, Itoa;
    var n := Itoa(if f.status == 0 then 200 else f.status);
    BlankIs();
    EncodedConcat("HTTP/1.1 " + n, " ");
    EncodedConcat("HTTP/1.1 ", n);
    EncodedConcat("HTTP/1.1", " ");
    assert "HTTP/1.1" + " " == "HTTP/1.1 ";
  }

  // ---- header lines -------------------------------------------------------

  /** A header line is cut at its first colon, and one blank after that is dropped. */
  function ReadHeader(line: Bytes): Header {
    var i := Index(line, [COLON]);
    if i < 0 then Header(line, [])
    else
      var value := line[i + 1..];
      Header(line[..i], if value != [] && value[0] == BLANK then value[1..] else value)
  }

  function ReadHeaders(ls: seq<Bytes>): (hs: seq<Header>)
    ensures |hs| == |ls| && forall i :: 0 <= i < |ls| ==> hs[i] == ReadHeader(ls[i])
  {
    seq(|ls|, i requires 0 <= i < |ls| => ReadHeader(ls[i]))
  }

  lemma ColonIs()
    ensures Encoded(":") == [COLON] && Encoded(": ") == [COLON, BLANK]
  {
    assert ":"[1..] == "" && ": "[1..] == " " && " "[1..] == "";
  }

  lemma HeaderReads(h: Header)
    requires COLON !in h.name
    ensures ReadHeader(HeaderLine(h)) == h
  {
    hide Encoded, Index;
    ColonIs();
    var line := HeaderLine(h);
    assert line[..|h.name|] == h.name && line[|h.name|] == COLON;
    FirstAt(line, COLON, |h.name|);
    assert line[|h.name| + 1..] == if h.value == [] then [] else [BLANK] + h.value;
  }

  /** The headers but those named Host. */
  function NotHost(hs: seq<Header>): seq<Header> {
    if hs == [] then []
    else
      var h := hs[|hs| - 1];
      NotHost(hs[..|hs| - 1]) + if IsHost(Runes(h.name)) then [] else [h]
  }

  predicate NamesClean(hs: seq<Header>) {
    forall i :: 0 <= i < |hs| ==> COLON !in hs[i].name
  }

  lemma {:induction false} HeadersRead(hs: seq<Header>, skipHost: bool)
    requires NamesClean(hs)
    ensures ReadHeaders(HeaderLines(hs, skipHost)) == if skipHost then NotHost(hs) else hs
  {
    hide HeaderLine, ReadHeader, IsHost, Runes;
    if hs != [] {
      var n := |hs| - 1;
      HeadersRead(hs[..n], skipHost);
      HeaderReads(hs[n]);
      assert hs == hs[..n] + [hs[n]];
    }
  }

  function HostHeader(f: Flow): seq<Header> {
    if f.host == [] then [] else [Header(Encoded("Host"), f.host)]
  }

  lemma HostReads(f: Flow)
    requires f.host != []
    ensures ReadHeader(HostLine(f)) == Header(Encoded("Host"), f.host)
  {
    hide Encoded, ReadHeader;
    EncodedHasAscii("Host", COLON);
    ColonIs();
    EncodedConcat("Host", ": ");
    assert "Host" + ": " == "Host: ";
    HeaderReads(Header(Encoded("Host"), f.host));
  }

  /** A request's head read line by line: its start line, its host under that name, and its other headers in order. */
  lemma RequestReads(f: Flow)
    requires CleanRequest(f) && BLANK !in f.method_ && BLANK !in f.path && NamesClean(f.reqHeaders)
    ensures var ls := Split(Head(RequestLines(f)), [NL]);
            && |ls| >= 2 && ls[|ls| - 1] == []
            && Split(ls[0], [BLANK]) == [f.method_, if f.path == [] then Encoded("/") else f.path, Encoded("HTTP/1.1")]
            && ReadHeaders(ls[1..|ls| - 1]) == HostHeader(f) + NotHost(f.reqHeaders)
  {
    hide Encoded, Head, Split, ReadHeader, HeaderLines, NotHost, RequestLine, HostLine, CleanLines, Runes, IsHost;
    var all := RequestLines(f);
    RequestLinesClean(f);
    NoNewlines(all);
    LinesRead(all);
    RequestLineReads(f);
    HeadersRead(f.reqHeaders, true);
    var ls := all + [[]];
    var hl := HeaderLines(f.reqHeaders, true);
    if f.host == [] {
      assert ls[1..|ls| - 1] == hl;
    } else {
      HostReads(f);
      assert ls[1..|ls| - 1] == [HostLine(f)] + hl;
    }
  }

  lemma NoNewlines(ls: seq<Bytes>)
    requires CleanLines(ls)
    ensures forall i :: 0 <= i < |ls| ==> NL !in ls[i]
  {
    forall i | 0 <= i < |ls| ensures NL !in ls[i] { assert CleanLine(ls[i]); }
  }

  /** A response's head likewise, all its headers in order. */
  lemma ResponseReads(f: Flow, text: nat -> string)
    requires CleanResponse(f, text) && NamesClean(f.respHeaders)
    ensures var ls := Split(Head(ResponseLines(f, text)), [NL]);
            && |ls| >= 2 && ls[|ls| - 1] == [] && ls[0] == StatusLine(f, text)
            && ReadHeaders(ls[1..|ls| - 1]) == f.respHeaders
  {
    hide Encoded, Head, Split, ReadHeader, HeaderLines, StatusLine, CleanLines;
    var all := ResponseLines(f, text);
    ResponseLinesClean(f, text);
    NoNewlines(all);
    LinesRead(all);
    HeadersRead(f.respHeaders, false);
    assert (all + [[]])[1..|all|] == HeaderLines(f.respHeaders, false);
  }
}
