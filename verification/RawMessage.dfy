/**
 Raw messages shown at a breakpoint (internal/core/flow.go) and how the proxy splits what comes
 back (internal/proxy/proxy.go, splitRawMessage): lines of the message format of section 2.1 of
 RFC 9112, ended by LF alone. Messages are bytes; the editor between the two works on runes.
 */
module RawMessage {
  import opened Text
  import opened Unicode
  import opened Editing
  import opened Wrappers

  datatype Header = Header(name: Bytes, value: Bytes)

  datatype Flow = Flow(
    method_: Bytes, path: Bytes, host: Bytes, reqHeaders: seq<Header>, reqBody: Bytes,
    status: nat, reason: Bytes, respHeaders: seq<Header>, respBody: Bytes)

  /** strings.EqualFold(name, "Host"), over its runes; the long s folds to s as well. */
  predicate IsHost(name: string) {
    && |name| == 4 && name[0] in "hH" && name[1] in "oO" && name[3] in "tT"
    && (name[2] in "sS" || name[2] as int == 0x17f)
  }

  // ---- the head, line by line ---------------------------------------------

  /** Lines each followed by a newline. */
  function Head(ls: seq<Bytes>): Bytes {
    if ls == [] then [] else Head(ls[..|ls| - 1]) + ls[|ls| - 1] + [NL]
  }

  function HeaderLine(h: Header): Bytes {
    if h.value == [] then h.name + Encoded(":") else h.name + Encoded(": ") + h.value
  }

  function HeaderLines(hs: seq<Header>, skipHost: bool): seq<Bytes> {
    if hs == [] then []
    else
      var h := hs[|hs| - 1];
      HeaderLines(hs[..|hs| - 1], skipHost) + if skipHost && IsHost(Runes(h.name)) then [] else [HeaderLine(h)]
  }

  function RequestLine(f: Flow): Bytes {
    f.method_ + Encoded(" ") + (if f.path == [] then Encoded("/") else f.path) + Encoded(" HTTP/1.1")
  }

  function HostLine(f: Flow): Bytes { Encoded("Host: ") + f.host }

  /** The lines of a request's head. */
  function RequestLines(f: Flow): seq<Bytes> {
    [RequestLine(f)] + (if f.host != [] then [HostLine(f)] else []) + HeaderLines(f.reqHeaders, true)
  }

  /** `text` is the standard reason of a status. */
  function StatusLine(f: Flow, text: nat -> string): Bytes {
    Encoded("HTTP/1.1 " + Itoa(if f.status == 0 then 200 else f.status) + " ")
    + (if f.reason == [] then Encoded(text(f.status)) else f.reason)
  }

  /** The lines of a response's head. */
  function ResponseLines(f: Flow, text: nat -> string): seq<Bytes> {
    [StatusLine(f, text)] + HeaderLines(f.respHeaders, false)
  }

  lemma HeadSnoc(ls: seq<Bytes>, l: Bytes)
    ensures Head(ls + [l]) == Head(ls) + l + [NL]
  {
    assert (ls + [l])[..|ls|] == ls;
  }

  lemma HeadOne(l: Bytes)
    ensures Head([l]) == l + [NL]
  {
    assert [l][..0] == [];
  }

  lemma HeaderLinesSnoc(before: seq<Bytes>, hs: seq<Header>, i: nat, skipHost: bool)
    requires i < |hs|
    ensures var ls := before + HeaderLines(hs[..i], skipHost);
            var next := before + HeaderLines(hs[..i + 1], skipHost);
            if skipHost && IsHost(Runes(hs[i].name)) then next == ls
            else Head(next) == Head(ls) + HeaderLine(hs[i]) + [NL]
  {
    hide Runes, IsHost, Head, HeaderLine;
    assert hs[..i + 1][..i] == hs[..i];
    var ls := before + HeaderLines(hs[..i], skipHost);
    if skipHost && IsHost(Runes(hs[i].name)) {
      assert HeaderLines(hs[..i], skipHost) + [] == HeaderLines(hs[..i], skipHost);
    } else {
      assert before + HeaderLines(hs[..i + 1], skipHost) == ls + [HeaderLine(hs[i])];
      HeadSnoc(ls, HeaderLine(hs[i]));
    }
  }

  method WriteHeaders(b0: Bytes, hs: seq<Header>, skipHost: bool, ghost before: seq<Bytes>) returns (b: Bytes)
    requires b0 == Head(before)
    ensures b == Head(before + HeaderLines(hs, skipHost))
  {
    b := b0;
    hide Head, IsHost, Runes, Encoded;
    assert before + HeaderLines(hs[..0], skipHost) == before;
    for i := 0 to |hs|
      invariant b == Head(before + HeaderLines(hs[..i], skipHost))
    {
      HeaderLinesSnoc(before, hs, i, skipHost);
      hide HeaderLines;
      var h := hs[i];
      if skipHost && IsHost(Runes(h.name)) {
        continue;
      }
      if h.value == [] {
        b := b + (h.name + Encoded(":")) + [NL];
        continue;
      }
      b := b + (h.name + Encoded(": ") + h.value) + [NL];
    }
    assert hs[..|hs|] == hs;
  }

  method RawRequest(f: Flow) returns (b: Bytes)
    ensures b == Head(RequestLines(f)) + ([NL] + f.reqBody)
  {
    hide Head, HeaderLines, Encoded;
    var path := f.path;
    if path == [] {
      path := Encoded("/");
    }
    var start := f.method_ + Encoded(" ") + path + Encoded(" HTTP/1.1");
    HeadOne(start);
    b := start + [NL];
    ghost var ls := [start];
    if f.host != [] {
      HeadSnoc(ls, HostLine(f));
      b := b + (Encoded("Host: ") + f.host) + [NL];
      ls := ls + [HostLine(f)];
    }
    b := WriteHeaders(b, f.reqHeaders, true, ls);
    assert RequestLines(f) == ls + HeaderLines(f.reqHeaders, true);
    b := b + ([NL] + f.reqBody);
  }

  method RawResponse(f: Flow, text: nat -> string) returns (b: Bytes)
    ensures b == Head(ResponseLines(f, text)) + ([NL] + f.respBody)
  {
    hide Head, HeaderLines, Itoa, Encoded;
    var reason := f.reason;
    if reason == [] {
      reason := Encoded(text(f.status));
    }
    var status := f.status;
    if status == 0 {
      status := 200;
    }
    var start := Encoded("HTTP/1.1 " + Itoa(status) + " ") + reason;
    HeadOne(start);
    b := start + [NL];
    b := WriteHeaders(b, f.respHeaders, false, [start]);
    b := b + ([NL] + f.respBody);
  }

  // ---- splitting ----------------------------------------------------------

  /** splitRawMessage: the head up to its last newline, and the body, if there is a blank line. */
  function SplitRaw(raw0: Bytes): (Bytes, Option<Bytes>) {
    var raw := ReplaceCRLF(raw0);
    var i := Index(raw, [NL, NL]);
    if i < 0 then (raw, None) else (raw[..i + 1], Some(raw[i + 2..]))
  }

  predicate NoBreaks(b: Bytes) { CR !in b && NL !in b }

  predicate CleanLine(l: Bytes) { l != [] && NoBreaks(l) }

  predicate CleanLines(ls: seq<Bytes>) {
    forall i :: 0 <= i < |ls| ==> CleanLine(ls[i])
  }

  lemma {:induction false} ReplaceAfter(a: Bytes, b: Bytes)
    requires CR !in a
    ensures ReplaceCRLF(a + b) == a + ReplaceCRLF(b)
  {
    if a == [] {
      assert a + b == b;
    } else {
      assert (a + b)[0] == a[0] && a[0] in a && (a + b)[1..] == a[1..] + b;
      if |a + b| < 2 {
        assert b == [] && a[1..] == [];
      } else {
        ReplaceAfter(a[1..], b);
        assert [a[0]] + (a[1..] + ReplaceCRLF(b)) == a + ReplaceCRLF(b);
      }
    }
  }

  lemma {:induction false} HeadHasNoCR(ls: seq<Bytes>)
    requires CleanLines(ls)
    ensures CR !in Head(ls)
  {
    if ls != [] {
      HeadHasNoCR(ls[..|ls| - 1]);
      assert NoBreaks(ls[|ls| - 1]);
    }
  }

  /** Inside the head no newline follows another. */
  lemma {:induction false} NoBlankLineInHead(ls: seq<Bytes>, k: nat)
    requires CleanLines(ls) && k + 1 < |Head(ls)|
    ensures Head(ls)[k] != NL || Head(ls)[k + 1] != NL
    ensures Head(ls)[|Head(ls)| - 1] == NL
  {
    var n := |ls| - 1;
    var h, l := Head(ls[..n]), ls[n];
    assert CleanLine(l) && Head(ls) == h + l + [NL];
    if k + 1 < |h| {
      NoBlankLineInHead(ls[..n], k);
      assert Head(ls)[k] == h[k] && Head(ls)[k + 1] == h[k + 1];
    } else if k + 1 < |h| + |l| {
      assert Head(ls)[k + 1] == l[k + 1 - |h|] && l[k + 1 - |h|] in l;
    } else {
      assert Head(ls)[k] == l[|l| - 1] && l[|l| - 1] in l;
    }
  }

  lemma EndsInNewline(ls: seq<Bytes>)
    requires ls != []
    ensures var h := Head(ls); h != [] && h[|h| - 1] == NL
  {
  }

  lemma BlankLineAt(ls: seq<Bytes>, body: Bytes)
    requires ls != [] && CleanLines(ls)
    ensures Index(Head(ls) + ([NL] + body), [NL, NL]) == |Head(ls)| - 1
  {
    var h := Head(ls);
    var s := h + ([NL] + body);
    EndsInNewline(ls);
    hide Index, Head;
    var i := |h| - 1;
    assert s[i] == NL && s[i + 1] == NL && s[i..i + 2] == [s[i], s[i + 1]];
    assert OccursAt(s, [NL, NL], i);
    forall k: nat | k < i
      ensures !OccursAt(s, [NL, NL], k)
    {
      NoBlankLineInHead(ls, k);
      assert s[k..k + 2] == [h[k], h[k + 1]];
    }
  }

  /** Head and body come apart where they were put together; the body's CR LF pairs are replaced. */
  lemma SplitOfJoined(ls: seq<Bytes>, body: Bytes)
    requires ls != [] && CleanLines(ls)
    ensures SplitRaw(Head(ls) + ([NL] + body)) == (Head(ls), Some(ReplaceCRLF(body)))
  {
    hide ReplaceCRLF, Index, Head, CleanLines;
    var h := Head(ls);
    ReplaceJoined(ls, body);
    var t := ReplaceCRLF(body);
    BlankLineAt(ls, t);
    EndsInNewline(ls);
    var raw := h + ([NL] + t);
    assert raw[..|h|] == h && raw[|h| + 1..] == t;
  }

  lemma ReplaceJoined(ls: seq<Bytes>, body: Bytes)
    requires CleanLines(ls)
    ensures ReplaceCRLF(Head(ls) + ([NL] + body)) == Head(ls) + ([NL] + ReplaceCRLF(body))
  {
    hide ReplaceCRLF, Head;
    HeadHasNoCR(ls);
    ReplaceAfter(Head(ls), [NL] + body);
    ReplaceAfter([NL], body);
  }

  // ---- a breakpoint released without edits --------------------------------

  /** What a raw message is after the editor has read it and given it back unedited. */
  function Unedited(raw: Bytes): Bytes { Sane(ReplaceCRLF(raw)) }

  predicate AllText(ls: seq<Bytes>) {
    forall i :: 0 <= i < |ls| ==> IsText(ls[i])
  }

  /** Each line through the editor. */
  function SaneLines(ls: seq<Bytes>): (r: seq<Bytes>)
    ensures |r| == |ls| && forall i :: 0 <= i < |ls| ==> r[i] == Sane(ls[i])
  {
    seq(|ls|, i requires 0 <= i < |ls| => Sane(ls[i]))
  }

  lemma SaneLineIsClean(l: Bytes)
    requires CleanLine(l)
    ensures CleanLine(Sane(l))
  {
    hide Sane;
    SaneHasAscii(l, CR);
    SaneHasAscii(l, NL);
    SaneUnfolds(l);
  }

  lemma {:induction false} SaneHead(ls: seq<Bytes>, rest: Bytes)
    ensures Sane(Head(ls) + rest) == Head(SaneLines(ls)) + Sane(rest)
  {
    hide Sane;
    if ls == [] {
      assert Head(ls) + rest == rest;
    } else {
      var n := |ls| - 1;
      var l := ls[n];
      assert Head(ls) + rest == Head(ls[..n]) + (l + [NL] + rest);
      SaneHead(ls[..n], l + [NL] + rest);
      SaneAround(l, NL, rest);
      assert SaneLines(ls)[..n] == SaneLines(ls[..n]);
      assert Head(SaneLines(ls)) == Head(SaneLines(ls[..n])) + Sane(l) + [NL];
    }
  }

  /** A head comes through the editor unchanged exactly when every line of it is text. */
  lemma HeadExact(ls: seq<Bytes>)
    requires CleanLines(ls)
    ensures Head(SaneLines(ls)) == Head(ls) <==> AllText(ls)
  {
    hide Sane;
    var sane := SaneLines(ls);
    if AllText(ls) {
      forall i | 0 <= i < |ls| ensures sane[i] == ls[i] { SaneExact(ls[i]); }
      assert sane == ls;
    }
    if Head(sane) == Head(ls) {
      forall j | 0 <= j < |ls| ensures CleanLine(sane[j]) { SaneLineIsClean(ls[j]); }
      HeadDetermines(sane, ls);
      forall i | 0 <= i < |ls| ensures IsText(ls[i]) { SaneExact(ls[i]); }
    }
  }

  lemma {:induction false} HeadDetermines(a: seq<Bytes>, b: seq<Bytes>)
    requires CleanLines(a) && CleanLines(b) && |a| == |b| && Head(a) == Head(b)
    ensures a == b
  {
    if a != [] {
      var n := |a| - 1;
      var h := Head(a);
      LastLine(a);
      LastLine(b);
      var k, m := |Head(a[..n])|, |Head(b[..n])|;
      assert k == m;
      assert a[n] == h[k..|h| - 1] && b[n] == h[m..|h| - 1];
      assert Head(a[..n]) == h[..k] && Head(b[..n]) == h[..m];
      HeadDetermines(a[..n], b[..n]);
      assert a == a[..n] + [a[n]] && b == b[..n] + [b[n]];
    }
  }

  /** The last line begins after the last newline but one. */
  lemma LastLine(ls: seq<Bytes>)
    requires CleanLines(ls) && ls != []
    ensures var n := |ls| - 1;
            var h, k := Head(ls), |Head(ls[..n])|;
            && k + 1 < |h| && h == Head(ls[..n]) + ls[n] + [NL]
            && (k == 0 || h[k - 1] == NL)
            && forall i :: k <= i < |h| - 1 ==> h[i] != NL
  {
    var n := |ls| - 1;
    if 0 < n {
      EndsInNewline(ls[..n]);
    }
    var h, k := Head(ls), |Head(ls[..n])|;
    assert CleanLine(ls[n]);
    forall i | k <= i < |h| - 1
      ensures h[i] != NL
    {
      assert h[i] == ls[n][i - k] && ls[n][i - k] in ls[n];
    }
  }

  /** A body comes through editor and split exactly when it is text without a CR LF pair. */
  lemma BodyExact(body: Bytes)
    ensures ReplaceCRLF(Sane(ReplaceCRLF(body))) == body <==> IsText(body) && !HasCRLF(body)
  {
    hide ReplaceCRLF, HasCRLF, Sane, IsText;
    var a := ReplaceCRLF(body);
    ReplaceChanges(body);
    SaneKeepsAscii(a, CR);
    ReplaceChanges(Sane(a));
    SaneExact(a);
  }

  /** The whole way: a message of clean lines, through the editor and the split. */
  lemma SplitOfUnedited(ls: seq<Bytes>, body: Bytes)
    requires ls != [] && CleanLines(ls)
    ensures SplitRaw(Unedited(Head(ls) + ([NL] + body)))
         == (Head(SaneLines(ls)), Some(ReplaceCRLF(Sane(ReplaceCRLF(body)))))
  {
    hide ReplaceCRLF, Head, Sane, SplitRaw;
    ReplaceJoined(ls, body);
    var t := ReplaceCRLF(body);
    SaneHead(ls, [NL] + t);
    SaneAround([], NL, t);
    NothingIsSane();
    assert [] + [NL] + t == [NL] + t && [] + [NL] + Sane(t) == [NL] + Sane(t);
    forall j | 0 <= j < |ls| ensures CleanLine(SaneLines(ls)[j]) { SaneLineIsClean(ls[j]); }
    SplitOfJoined(SaneLines(ls), Sane(t));
  }

  predicate CleanHeaders(hs: seq<Header>) {
    forall i :: 0 <= i < |hs| ==> NoBreaks(hs[i].name) && NoBreaks(hs[i].value)
  }

  /** Literal text without line breaks has none as bytes. */
  lemma NoBreaksIn(s: string)
    requires '\r' !in s && '\n' !in s
    ensures NoBreaks(Encoded(s)) && (Encoded(s) == [] <==> s == "")
  {
    EncodedHasAscii(s, CR);
    EncodedHasAscii(s, NL);
  }

  lemma {:induction false} HeaderLinesClean(hs: seq<Header>, skipHost: bool)
    requires CleanHeaders(hs)
    ensures CleanLines(HeaderLines(hs, skipHost))
  {
    hide Encoded, IsHost, Runes;
    if hs != [] {
      HeaderLinesClean(hs[..|hs| - 1], skipHost);
      NoBreaksIn(":");
      NoBreaksIn(": ");
      assert CleanLine(HeaderLine(hs[|hs| - 1]));
    }
  }

  predicate CleanRequest(f: Flow) {
    NoBreaks(f.method_) && NoBreaks(f.path) && NoBreaks(f.host) && CleanHeaders(f.reqHeaders)
  }

  lemma RequestLinesClean(f: Flow)
    requires CleanRequest(f)
    ensures CleanLines(RequestLines(f))
  {
    hide Encoded;
    HeaderLinesClean(f.reqHeaders, true);
    NoBreaksIn(" ");
    NoBreaksIn("/");
    NoBreaksIn(" HTTP/1.1");
    NoBreaksIn("Host: ");
    assert CleanLine(RequestLine(f)) && CleanLine(HostLine(f));
  }

  lemma ItoaIsClean(n: nat)
    ensures '\r' !in Itoa(n) && '\n' !in Itoa(n)
  {
    var s := Itoa(n);
    var c := CharCodes(s);
    forall k | 0 <= k < |s|
      ensures s[k] != '\r' && s[k] != '\n'
    {
      assert 48 <= c[k] && c[k] == s[k] as int;
    }
  }

  predicate CleanResponse(f: Flow, text: nat -> string) {
    NoBreaks(f.reason) && NoBreaks(Encoded(text(f.status))) && CleanHeaders(f.respHeaders)
  }

  lemma ResponseLinesClean(f: Flow, text: nat -> string)
    requires CleanResponse(f, text)
    ensures CleanLines(ResponseLines(f, text))
  {
    hide Encoded, Itoa;
    HeaderLinesClean(f.respHeaders, false);
    var n := if f.status == 0 then 200 else f.status;
    ItoaIsClean(n);
    NoBreaksIn("HTTP/1.1 " + Itoa(n) + " ");
    assert CleanLine(StatusLine(f, text));
  }

  /**
   The request rendered, put in the editor, taken out unedited and split: its head comes back exactly if
   and only if every line of it is UTF-8, and its body if and only if that is UTF-8 without a CR LF pair.
   */
  method ReleaseRequest(f: Flow) returns (head: Bytes, body: Bytes)
    requires CleanRequest(f)
    ensures head == Head(RequestLines(f)) <==> AllText(RequestLines(f))
    ensures body == f.reqBody <==> IsText(f.reqBody) && !HasCRLF(f.reqBody)
  {
    var raw := RawRequest(f);
    RequestLinesClean(f);
    head, body := Release(raw, RequestLines(f), f.reqBody);
  }

  method ReleaseResponse(f: Flow, text: nat -> string) returns (head: Bytes, body: Bytes)
    requires CleanResponse(f, text)
    ensures head == Head(ResponseLines(f, text)) <==> AllText(ResponseLines(f, text))
    ensures body == f.respBody <==> IsText(f.respBody) && !HasCRLF(f.respBody)
  {
    var raw := RawResponse(f, text);
    ResponseLinesClean(f, text);
    head, body := Release(raw, ResponseLines(f, text), f.respBody);
  }

  method Release(raw: Bytes, ghost ls: seq<Bytes>, ghost sent: Bytes) returns (head: Bytes, body: Bytes)
    requires ls != [] && CleanLines(ls) && raw == Head(ls) + ([NL] + sent)
    ensures (head, Some(body)) == SplitRaw(Unedited(raw))
    ensures head == Head(ls) <==> AllText(ls)
    ensures body == sent <==> IsText(sent) && !HasCRLF(sent)
  {
    hide Head, SplitRaw, HasCRLF, IsText, CleanLines, AllText;
    var e := new Editor(raw);
    var text := e.Text();
    SplitOfUnedited(ls, sent);
    HeadExact(ls);
    BodyExact(sent);
    var (h, b) := SplitRaw(text);
    head, body := h, b.value;
  }
}
