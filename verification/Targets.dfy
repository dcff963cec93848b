/** Listen addresses and proxy targets (internal/sysproxy/sysproxy.go, splitTarget of the platforms). */
module Targets {
  import opened Wrappers
  import Text
  import Decimal

  function LastIndex(s: string, c: char): (i: int)
    ensures i == -1 || (0 <= i < |s| && s[i] == c)
    ensures forall k :: i < k < |s| ==> s[k] != c
  {
    if s == [] then -1
    else if s[|s| - 1] == c then |s| - 1
    else LastIndex(s[..|s| - 1], c)
  }

  predicate Bracket(c: char) { c == '[' || c == ']' }

  function TrimBracketsLeft(s: string): string {
    if s != [] && Bracket(s[0]) then TrimBracketsLeft(s[1..]) else s
  }

  function TrimBrackets(s: string): string
    decreases |s|
  {
    var t := TrimBracketsLeft(s);
    TrimBracketsRight(t)
  }

  function TrimBracketsRight(s: string): string {
    if s != [] && Bracket(s[|s| - 1]) then TrimBracketsRight(s[..|s| - 1]) else s
  }

  function SplitHostPort(addr: string): Option<(string, string)> {
    var i := LastIndex(addr, ':');
    if i < 0 then None else Some((TrimBrackets(addr[..i]), addr[i + 1..]))
  }

  predicate Wildcard(host: string) { host == "" || host == "0.0.0.0" || host == "::" }

  /** The host and port a listen address means; wildcard hosts become loopback. */
  function LocalTarget(addr: string): (r: Option<(string, int)>)
    ensures r.Some? ==> 1 <= r.value.1 <= 65535
    ensures r.Some? ==> r.value.0 != "" && r.value.0 != "0.0.0.0" && r.value.0 != "::"
  {
    match SplitHostPort(addr)
    case None => None
    case Some((host, portText)) =>
      match Text.Atoi(portText)
      case None => None
      case Some(port) =>
        if port < 1 || 65535 < port then None
        else Some((if Wildcard(host) then "127.0.0.1" else host, port))
  }

  function SplitTarget(target: string): (string, int) {
    match SplitHostPort(target)
    case None => (target, 0)
    case Some((host, portText)) =>
      (host, match Text.Atoi(portText) case Some(n) => n case None => 0)
  }

  predicate Unbracketed(host: string) {
    host == [] || (!Bracket(host[0]) && !Bracket(host[|host| - 1]))
  }

  lemma ItoaHasNoColon(n: int)
    ensures ':' !in Text.Itoa(n)
  {
    var s := Text.Itoa(n);
    forall k | 0 <= k < |s|
      ensures s[k] != ':'
    {
      assert s[k] as int == Decimal.Itoa(n)[k] by { assert Text.CharCodes(s)[k] == s[k] as int; }
    }
  }

  lemma LastIndexOf(h: string, c: char, b: string)
    requires h != [] && h[|h| - 1] == c && forall k :: 0 <= k < |b| ==> b[k] != c
    ensures LastIndex(h + b, c) == |h| - 1
  {
    hide LastIndex;
    var s := h + b;
    assert s[|h| - 1] == c;
    forall k | |h| - 1 < k < |s|
      ensures s[k] != c
    {
      assert s[k] == b[k - |h|];
    }
  }

  /** Splitting takes an address apart where it was put together, and strips brackets off the host. */
  lemma SplitOfAddress(host: string, port: int)
    ensures SplitHostPort(host + ":" + Text.Itoa(port)) == Some((TrimBrackets(host), Text.Itoa(port)))
  {
    hide LastIndex, Text.Itoa, TrimBrackets;
    var n := Text.Itoa(port);
    var t := host + ":" + n;
    ItoaHasNoColon(port);
    LastIndexOf(host + ":", ':', n);
    assert t[..|host|] == host && t[|host| + 1..] == n;
  }

  lemma {:induction false} TrimLeftShortens(s: string)
    ensures |TrimBracketsLeft(s)| <= |s| && (s != [] && Bracket(s[0]) ==> |TrimBracketsLeft(s)| < |s|)
  {
    if s != [] && Bracket(s[0]) {
      TrimLeftShortens(s[1..]);
    }
  }

  lemma {:induction false} TrimRightShortens(s: string)
    ensures |TrimBracketsRight(s)| <= |s| && (s != [] && Bracket(s[|s| - 1]) ==> |TrimBracketsRight(s)| < |s|)
  {
    if s != [] && Bracket(s[|s| - 1]) {
      TrimRightShortens(s[..|s| - 1]);
    }
  }

  lemma TrimExact(host: string)
    ensures TrimBrackets(host) == host <==> Unbracketed(host)
  {
    TrimLeftShortens(host);
    TrimRightShortens(TrimBracketsLeft(host));
  }

  /** The platform splits the target into the host and port it was made of if and only if the host has no brackets at its ends. */
  lemma SplitOfTarget(host: string, port: int)
    requires -Decimal.MAX_INT - 1 <= port <= Decimal.MAX_INT
    ensures SplitTarget(host + ":" + Text.Itoa(port)) == (TrimBrackets(host), port)
    ensures SplitTarget(host + ":" + Text.Itoa(port)) == (host, port) <==> Unbracketed(host)
  {
    hide SplitHostPort, TrimBrackets, Text.Itoa, Text.Atoi;
    SplitOfAddress(host, port);
    Text.AtoiOfItoa(port);
    TrimExact(host);
  }

  /** Every listen address with a port in range is accepted, and a wildcard becomes loopback; no other port is. */
  lemma LocalTargetExact(host: string, port: int)
    requires -Decimal.MAX_INT - 1 <= port <= Decimal.MAX_INT
    ensures LocalTarget(host + ":" + Text.Itoa(port))
         == if 1 <= port <= 65535
            then Some((if Wildcard(TrimBrackets(host)) then "127.0.0.1" else TrimBrackets(host), port))
            else None
  {
    hide SplitHostPort, TrimBrackets, Text.Itoa, Text.Atoi;
    SplitOfAddress(host, port);
    Text.AtoiOfItoa(port);
  }

  lemma NoPortIsRefused(addr: string)
    ensures ':' !in addr ==> LocalTarget(addr).None?
  {
    hide LastIndex, Text.Atoi;
  }

  /** A target without a colon is a host alone. */
  lemma HostAlone(target: string)
    ensures ':' !in target ==> SplitTarget(target) == (target, 0)
  {
    NoPortIsRefused(target);
  }
}
