/** Which targets http_parser_parse_url accepts of a CONNECT request. */
module Connects {
  import opened Bytes
  import opened HttpTypes
  import opened Dispatch
  import opened Targets
  import opened UrlParts
  import opened Url
  import opened UrlRoundTrip
  import opened Hosts

  // ---------- The labels of the server ----------

  /** A colon and a number at the end. */
  predicate EndsInPort(s: string) {
    exists i | 0 <= i < |s| - 1 :: s[i] == ':' && AllNum(s[i + 1..])
  }

  lemma PortStep(s: HostState, c: char)
    ensures ParseHostChar(s, c).HostPort? <==> IsNum(c) && (s.HostPort? || s.HostPortStart?)
    ensures ParseHostChar(s, c).HostPortStart? ==> c == ':'
  {
  }

  /** Digits behind a colon end in the port, or not where a host may end. */
  lemma DigitStays(s: HostState, c: char)
    requires IsNum(c) && (s.Userinfo? || s.HostV6? || s.HostPort? || s.HostPortStart?)
    ensures var r := ParseHostChar(s, c); r.Userinfo? || r.HostV6? || r.HostPort?
  {
  }

  lemma ColonLeads(s: HostState)
    ensures var r := ParseHostChar(s, ':'); r.Userinfo? || r.HostV6? || r.HostPortStart? || r.HostDead?
  {
  }

  lemma {:induction false} PortBehind(at: bool, s: string, n: nat) returns (i: nat)
    requires n <= |s| && HostAfter(at, s, n).HostPort?
    ensures i < n - 1 && s[i] == ':' && AllNum(s[i + 1..n])
  {
    hide ParseHostChar;
    PortStep(HostAfter(at, s, n - 1), s[n - 1]);
    if HostAfter(at, s, n - 1).HostPort? {
      i := PortBehind(at, s, n - 1);
      assert s[i + 1..n] == s[i + 1..n - 1] + [s[n - 1]];
    } else {
      i := n - 2;
      PortStep(HostAfter(at, s, n - 2), s[n - 2]);
    }
  }

  lemma FewerDigits(s: string, a: nat, n: nat)
    requires a < n <= |s| && AllNum(s[a..n])
    ensures IsNum(s[n - 1]) && AllNum(s[a..n - 1])
  {
    var t := s[a..n];
    assert s[n - 1] == t[n - 1 - a];
    var u := s[a..n - 1];
    forall k | 0 <= k < |u| ensures IsNum(u[k]) {
      assert u[k] == t[k];
    }
  }

  lemma {:induction false} DigitsLead(at: bool, s: string, i: nat, n: nat)
    requires i < n <= |s| && s[i] == ':' && AllNum(s[i + 1..n])
    ensures var r := HostAfter(at, s, n); r.Userinfo? || r.HostV6? || r.HostPort? || r.HostDead? || (n == i + 1 && r.HostPortStart?)
    decreases n
  {
    hide ParseHostChar;
    if n == i + 1 {
      ColonLeads(HostAfter(at, s, i));
    } else {
      FewerDigits(s, i + 1, n);
      DigitsLead(at, s, i, n - 1);
      DeadHost(s[n - 1]);
      if !HostAfter(at, s, n - 1).HostDead? {
        DigitStays(HostAfter(at, s, n - 1), s[n - 1]);
      }
    }
  }

  /** It is told from the text whether the host machine ends in a port. */
  lemma PortIs(at: bool, s: string)
    requires HostDone(HostAfter(at, s, |s|))
    ensures HostAfter(at, s, |s|).HostPort? <==> EndsInPort(s)
  {
    hide HostAfter;
    if HostAfter(at, s, |s|).HostPort? {
      var i := PortBehind(at, s, |s|);
      assert s[i + 1..|s|] == s[i + 1..];
    }
    if EndsInPort(s) {
      var i :| 0 <= i < |s| - 1 && s[i] == ':' && AllNum(s[i + 1..]);
      assert s[i + 1..|s|] == s[i + 1..];
      DigitsLead(at, s, i, |s|);
    }
  }

  lemma {:induction false} HostAlive(at: bool, s: string, k: nat, n: nat)
    requires k <= n <= |s| && !HostAfter(at, s, n).HostDead?
    ensures !HostAfter(at, s, k).HostDead? && HostRank(HostAfter(at, s, k)) <= HostRank(HostAfter(at, s, n))
    decreases n
  {
    hide ParseHostChar, HostRank;
    if k < n {
      DeadHost(s[n - 1]);
      HostRankStep(HostAfter(at, s, n - 1), s[n - 1]);
      HostAlive(at, s, k, n - 1);
    }
  }

  predicate BehindHost(s: HostState) {
    s.Host? || s.HostV6? || s.HostV6End? || s.HostPortStart? || s.HostPort?
  }

  lemma BehindStep(s: HostState, c: char)
    requires BehindHost(ParseHostChar(s, c))
    ensures ParseHostChar(s, c).Host? || ParseHostChar(s, c).HostV6? || BehindHost(s)
  {
  }

  lemma {:induction false} HostPassed(at: bool, s: string, n: nat) returns (i: nat)
    requires n <= |s| && BehindHost(HostAfter(at, s, n))
    ensures i < n && HostRegion(HostAfter(at, s, i + 1)) == UF_HOST
  {
    hide ParseHostChar;
    BehindStep(HostAfter(at, s, n - 1), s[n - 1]);
    i := n - 1;
    if !HostAfter(at, s, n).Host? && !HostAfter(at, s, n).HostV6? {
      i := HostPassed(at, s, n - 1);
    }
  }

  lemma FirstHostStep(at: bool, c: char)
    ensures var r := ParseHostChar(HostInit(at), c);
      if at && c != '@' then r.Userinfo? || r.HostDead? else r.HostDead? || HostRank(r) >= 2
  {
  }

  /** The parts of an accepted server: a host always, a port if it ends in one, and user information if there is
      an @ behind at least one byte. */
  lemma ServerParts(at: bool, s: string)
    requires s != "" && HostDone(HostAfter(at, s, |s|))
    ensures var q := HostRegions(at, s, |s|);
      && UF_HOST in q && (UF_PORT in q <==> EndsInPort(s)) && (UF_USERINFO in q <==> at && s[0] != '@')
  {
    hide ParseHostChar, HostAfter, EndsInPort, HostRank;
    var n, q := |s|, HostRegions(at, s, |s|);
    var i := HostPassed(at, s, n);
    assert q[i] == UF_HOST;
    PortIs(at, s);
    assert q[n - 1] == HostRegion(HostAfter(at, s, n));
    assert HostAfter(at, s, 1) == ParseHostChar(HostInit(at), s[0]) by { OneHostStep(at, s); }
    FirstHostStep(at, s[0]);
    HostAlive(at, s, 1, n);
    assert q[0] == HostRegion(HostAfter(at, s, 1));
    forall k | 0 <= k < n
      ensures q[k] == UF_PORT ==> EndsInPort(s)
      ensures q[k] == UF_USERINFO ==> at && s[0] != '@'
    {
      HostAlive(at, s, k + 1, n);
      HostAlive(at, s, 1, k + 1);
      Levels(HostAfter(at, s, k + 1));
      Levels(HostAfter(at, s, n));
    }
  }

  lemma OneHostStep(at: bool, s: string)
    requires s != ""
    ensures HostAfter(at, s, 1) == ParseHostChar(HostInit(at), s[0])
  {
    hide ParseHostChar;
    assert HostAfter(at, s, 0) == HostInit(at);
  }

  lemma Levels(s: HostState)
    ensures HostRegion(s) == UF_PORT <==> s.HostPort?
    ensures HostRegion(s) == UF_USERINFO ==> HostRank(s) == 1
    ensures s.HostPort? <==> HostRank(s) == 8
    ensures HostRank(s) <= 8
  {
  }

  // ---------- The labels behind the server ----------

  /** Nothing, or a question mark and perhaps number signs. */
  predicate OnlyMarks(t: string) {
    t == "" || (t[0] == '?' && forall i | 0 < i < |t| :: t[i] == '#')
  }

  predicate NoPart(s: State) {
    s.ReqQueryStringStart? || s.ReqFragmentStart?
  }

  lemma MarkStep(s: State, c: char)
    requires !ParseUrlChar(s, c).Dead?
    ensures IsServer(s) && (c == '/' || c == '?') ==> (NoPart(ParseUrlChar(s, c)) <==> c == '?')
    ensures NoPart(s) ==> (NoPart(ParseUrlChar(s, c)) <==> c == '#')
  {
  }

  lemma TailPart(s: State)
    requires InTail(s)
    ensures Region(s) in {UF_PATH, UF_QUERY, UF_FRAGMENT, UF_MAX} && (NoPart(s) <==> Region(s) == UF_MAX)
  {
  }

  lemma {:induction false} OnlyMarksSay(url: string, m: nat, n: nat)
    requires 0 < m < n <= |url| && !After(true, url, |url|).Dead? && IsServer(After(true, url, m)) && (url[m] == '/' || url[m] == '?')
    ensures OnlyMarks(url[m..n]) <==> forall k | m < k <= n :: NoPart(After(true, url, k))
    decreases n
  {
    hide ParseUrlChar, After;
    PrefixAlive(true, url, n);
    AfterStep(url, n);
    MarkStep(After(true, url, n - 1), url[n - 1]);
    if n > m + 1 {
      OnlyMarksSay(url, m, n - 1);
      MarksMore(url[m..n - 1], url[n - 1]);
      assert url[m..n] == url[m..n - 1] + [url[n - 1]];
    } else {
      assert url[m..n] == [url[m]];
    }
  }

  lemma MarksMore(t: string, c: char)
    requires t != ""
    ensures OnlyMarks(t + [c]) <==> OnlyMarks(t) && c == '#'
  {
    var u := t + [c];
    assert u[|t|] == c && forall i | 0 <= i < |t| :: u[i] == t[i];
    if OnlyMarks(u) {
      assert forall i | 0 < i < |t| :: t[i] == u[i] == '#';
    }
  }

  lemma AfterStep(url: string, n: nat)
    requires 0 < n <= |url|
    ensures After(true, url, n) == ParseUrlChar(After(true, url, n - 1), url[n - 1])
  {
    hide ParseUrlChar;
  }

  predicate NoParts(q: seq<nat>) {
    forall k | 0 <= k < |q| :: q[k] == UF_MAX
  }

  /** Behind the server of a target there are no parts if and only if there are only marks. */
  lemma RestParts(url: string)
    requires !After(true, url, |url|).Dead? && Server(true, url) != ""
    ensures var m, q := |Server(true, url)|, Regions(true, url, |url|);
      && m <= |url|
      && (forall k | m <= k < |url| :: q[k] in {UF_PATH, UF_QUERY, UF_FRAGMENT, UF_MAX})
      && (OnlyMarks(url[m..]) <==> NoParts(q[m..]))
  {
    hide ParseUrlChar, After, Region, NoPart, OnlyMarks;
    var m, q := |Server(true, url)|, Regions(true, url, |url|);
    WholeServer(url);
    forall k | m <= k < |url|
      ensures q[k] in {UF_PATH, UF_QUERY, UF_FRAGMENT, UF_MAX} && (NoPart(After(true, url, k + 1)) <==> q[k] == UF_MAX)
    {
      PrefixAlive(true, url, k + 1);
      BehindServer(url, m, k);
      TailPart(After(true, url, k + 1));
      assert q[k] == Region(After(true, url, k + 1));
    }
    if m < |url| {
      ServerStates(true, url, m - 1);
      OnlyMarksSay(url, m, |url|);
      assert url[m..|url|] == url[m..];
      if OnlyMarks(url[m..]) {
        forall k | m <= k < |url| ensures q[k] == UF_MAX {
          assert NoPart(After(true, url, k + 1));
        }
      } else {
        var k :| m < k <= |url| && !NoPart(After(true, url, k));
        var j := k - 1;
        assert m <= j < |url| && After(true, url, j + 1) == After(true, url, k);
        assert q[j] != UF_MAX;
        assert q[m..][j - m] == q[j];
      }
    } else {
      assert url[m..] == "";
      assert OnlyMarks("") by { NoMarks(); }
    }
  }

  lemma NoMarks()
    ensures OnlyMarks("")
  {
  }

  lemma WholeServer(url: string)
    ensures var m := |Server(true, url)|; m == ServerEnd(url) && m <= |url| && Server(true, url) == url[..m]
  {
    assert url[0..] == url;
  }

  /** Behind the server the machine is in the tail. */
  lemma {:induction false} BehindServer(url: string, m: nat, k: nat)
    requires m <= k < |url| && m == ServerEnd(url) && !After(true, url, k + 1).Dead? && !After(true, url, |url|).Dead?
    ensures InTail(After(true, url, k + 1))
    decreases k
  {
    hide ParseUrlChar, After;
    AfterIsUrlEnd(true, url, k + 1);
    ServerEnds(ReqServerStart, url[..k + 1]);
    ServerEndPrefix(url, k + 1);
  }

  // ---------- The whole target ----------

  lemma AcceptedIs(memory: string, n: nat)
    requires n <= |memory|
    ensures Accepted(true, memory, n) <==>
              Parsed(true, memory[..n]) && HostAndPort(Labels(true, memory[..n])) && PortOf(true, memory, n) <= 65535
  {
    hide Parsed, HostAndPort, Labels, PortOf;
  }

  /** A host and a port as the text of a target has them. */
  predicate HostWithPort(url: string) {
    var s := Server(true, url);
    && |s| <= |url| && HostGrammar('@' in s, s) && EndsInPort(s) && ('@' in s ==> s[0] == '@')
    && OnlyMarks(url[|s|..])
  }

  lemma InAppended(a: seq<nat>, b: seq<nat>, p: nat)
    ensures p in a + b <==> p in a || p in b
  {
  }

  lemma LabelsOfServer(url: string)
    requires Parsed(true, url) && Server(true, url) != ""
    ensures var s := Server(true, url);
      && |s| <= |url| && HostDone(HostAfter('@' in s, s, |s|))
      && Labels(true, url) == HostRegions('@' in s, s, |s|) + Regions(true, url, |url|)[|s|..]
  {
    hide ParseUrlChar, ParseHostChar, After, Regions, Count, First, HostDone, HostAfter, FoundAt, Server, HostRegions;
    WholeServer(url);
    HostIsServer(true, url);
    FoundAtInHost(true, url);
    HostTextSize(true, url);
    HostIsOneRun(true, url);
    ServerStates(true, url, 0);
    FirstIsHost(url);
    var q := Regions(true, url, |url|);
    assert q[..0] == [];
    assert HostStartsAt(true, url) == 0;
  }

  lemma FirstIsHost(url: string)
    requires url != "" && IsServer(After(true, url, 1))
    ensures Regions(true, url, |url|)[0] == UF_HOST
  {
    hide After;
  }

  lemma Allowed(q: seq<nat>, a: seq<nat>, b: seq<nat>)
    requires q == a + b && UF_HOST in a && (forall k | 0 <= k < |a| :: a[k] in {UF_HOST, UF_PORT, UF_USERINFO, UF_MAX})
    requires forall k | 0 <= k < |b| :: b[k] in {UF_PATH, UF_QUERY, UF_FRAGMENT, UF_MAX}
    ensures HostAndPort(q) <==> UF_PORT in a && UF_USERINFO !in a && NoParts(b)
  {
    hide Count;
    forall p ensures Count(q, p) > 0 <==> p in a || p in b {
      CountIs(q, p);
      InAppended(a, b, p);
    }
    if HostAndPort(q) {
      assert Count(q, UF_PORT) > 0 && Count(q, UF_USERINFO) == 0 && Count(q, UF_PATH) == 0 && Count(q, UF_QUERY) == 0
             && Count(q, UF_FRAGMENT) == 0;
    }
  }

  lemma PartsIff(url: string)
    requires Parsed(true, url)
    ensures HostAndPort(Labels(true, url)) <==> HostWithPort(url)
  {
    hide ParseUrlChar, ParseHostChar, After, Parsed, HostAndPort, Labels, HostAfter, HostGrammar, EndsInPort, OnlyMarks, Server, Authority, Count;
    ParsedIff(true, url);
    WholeServer(url);
    var s := Server(true, url);
    if s == "" {
      NoServerNoPort(url);
    } else {
      LabelsOfServer(url);
      ServerParts('@' in s, s);
      ParsedAlive(url);
      RestParts(url);
      var a, b := HostRegions('@' in s, s, |s|), Regions(true, url, |url|)[|s|..];
      assert forall k | 0 <= k < |b| :: b[k] == Regions(true, url, |url|)[|s| + k];
      Allowed(Labels(true, url), a, b);
    }
  }

  lemma ParsedAlive(url: string)
    requires Parsed(true, url)
    ensures !After(true, url, |url|).Dead?
  {
  }

  lemma NoServerNoPort(url: string)
    requires Parsed(true, url) && Server(true, url) == ""
    ensures !HostAndPort(Labels(true, url)) && !EndsInPort("")
  {
    hide ParseUrlChar, After, Regions, Count, First, FoundAt, Server, Region;
    HostIsServer(true, url);
    HostTextSize(true, url);
    var q := Regions(true, url, |url|);
    CountIs(q, UF_HOST);
    CountIs(Labels(true, url), UF_HOST);
    assert HostSize(true, url) == 0;
    var h := HostStartsAt(true, url);
    assert q[..h] + [] + q[h..] == q;
    assert Labels(true, url) == q;
  }

  /** A target of CONNECT is accepted if and only if it is a host with a port of 16 bits, but for an @ before it
      and for a question mark and number signs behind it. */
  lemma ConnectIff(memory: string, n: nat)
    requires n <= |memory|
    ensures Accepted(true, memory, n) <==>
              && Authority(memory[..n]) && HostWithPort(memory[..n]) && PortOf(true, memory, n) <= 65535
  {
    hide Parsed, HostAndPort, Labels, PortOf, Authority, EndsInPort, OnlyMarks, HostGrammar, Server;
    AcceptedIs(memory, n);
    ParsedIff(true, memory[..n]);
    if Parsed(true, memory[..n]) {
      PartsIff(memory[..n]);
    }
    NoEmptyPort();
  }

  lemma NoEmptyPort()
    ensures !EndsInPort("")
  {
  }

  const EXTRAS := "@h:1?#"

  /** So more than "hostname:port" passes. */
  lemma MoreThanHostAndPort()
    ensures Accepted(true, EXTRAS, 6)
  {
    hide Accepted, PortOf, HostWithPort, Authority;
    assert EXTRAS[..6] == EXTRAS;
    ServerOfExtras();
    ExtrasAreAllowed();
    SmallPort();
    ConnectIff(EXTRAS, 6);
  }

  lemma ExtrasAreAllowed()
    ensures HostWithPort(EXTRAS) && Authority(EXTRAS)
  {
    hide Server, HostGrammar, EndsInPort;
    ServerOfExtras();
    GrammarOfExtras();
    assert EXTRAS[4..] == "?#" && EXTRAS[5..] == "#";
    assert "@h:1"[0] == '@';
  }

  lemma ServerOfExtras()
    ensures ServerEnd(EXTRAS) == 4 && Server(true, EXTRAS) == "@h:1" && '@' in "@h:1"
  {
    WholeServer(EXTRAS);
    assert EXTRAS[1..] == "h:1?#" && "h:1?#"[1..] == ":1?#" && ":1?#"[1..] == "1?#" && "1?#"[1..] == "?#";
    assert ServerEnd("?#") == 0 && ServerEnd("1?#") == 1 && ServerEnd(":1?#") == 2 && ServerEnd("h:1?#") == 3;
    assert EXTRAS[..4] == "@h:1";
    assert "@h:1"[0] == '@';
  }

  lemma GrammarOfExtras()
    ensures HostGrammar(true, "@h:1") && EndsInPort("@h:1")
  {
    var s, h := "@h:1", "h:1";
    assert Until(s, '@') == 0 && s[1..] == h;
    assert h[1..] == ":1" && Until(":1", ':') == 0 && Until(h, ':') == 1;
    assert ":1"[1..] == "1" && AllNum("1");
    assert h[..1] == "h" && AllName("h");
    assert s[2] == ':' && s[3..] == "1";
  }

  lemma SmallPort()
    ensures PortOf(true, EXTRAS, 6) <= 65535
  {
    hide Count, First, Labels;
    Absent(Labels(true, EXTRAS[..6]), UF_PORT);
    var i := First(Labels(true, EXTRAS[..6]), UF_PORT);
    var d := DigitsFrom(EXTRAS, i);
    assert forall k | 0 <= k < 6 :: IsNum(EXTRAS[k]) <==> k == 3;
    assert |d| <= 1;
    assert DecValue("") == 0;
    if |d| == 1 {
      assert d[..0] == "";
    }
  }
}
