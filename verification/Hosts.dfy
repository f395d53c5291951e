/** Which texts http_parse_host accepts between the schema and the path. */
module Hosts {
  import opened Bytes
  import opened HttpTypes
  import opened Dispatch
  import opened FirstLines
  import opened Targets
  import opened UrlParts
  import opened Url
  import opened UrlRoundTrip

  // ---------- The grammar ----------

  /** The first index of `c`, or the length. */
  function Until(t: string, c: char): (k: nat)
    ensures k <= |t| && (k < |t| ==> t[k] == c)
    ensures forall i | 0 <= i < k :: t[i] != c
  {
    if t == "" || t[0] == c then 0 else 1 + Until(t[1..], c)
  }

  /** Nothing, or a colon and a number. */
  predicate PortPart(t: string) {
    t == "" || (t[0] == ':' && |t| > 1 && AllNum(t[1..]))
  }

  predicate NameByte(c: char) {
    'a' <= c <= 'z' || 'A' <= c <= 'Z' || '0' <= c <= '9' || c == '.' || c == '-'
  }

  predicate AllName(t: string) {
    forall i | 0 <= i < |t| :: NameByte(t[i])
  }

  predicate AddressByte(c: char) {
    'a' <= c <= 'f' || 'A' <= c <= 'F' || '0' <= c <= '9' || c == ':'
  }

  predicate AllAddress(t: string) {
    forall i | 0 <= i < |t| :: AddressByte(t[i])
  }

  /** A name, or an address in brackets, and perhaps a port. */
  predicate HostPart(t: string) {
    if t != "" && t[0] == '[' then
      var k := Until(t, ']');
      1 < k < |t| && AllAddress(t[1..k]) && PortPart(t[k + 1..])
    else
      var k := Until(t, ':');
      k > 0 && AllName(t[..k]) && PortPart(t[k..])
  }

  /** Behind the user information, if an @ was found. */
  predicate HostGrammar(at: bool, t: string) {
    if at then
      var k := Until(t, '@');
      k < |t| && (forall i | 0 <= i < k :: IsUserinfoChar(t[i])) && HostPart(t[k + 1..])
    else HostPart(t)
  }

  // ---------- The machine ----------

  function HostEnd(s: HostState, t: string): HostState
    decreases |t|
  {
    if t == "" then s else HostEnd(ParseHostChar(s, t[0]), t[1..])
  }

  lemma {:induction false} EndMore(s: HostState, t: string, c: char)
    ensures HostEnd(s, t + [c]) == ParseHostChar(HostEnd(s, t), c)
    decreases |t|
  {
    hide ParseHostChar;
    if t == "" {
      assert [c][1..] == "" && "" + [c] == [c];
    } else {
      assert (t + [c])[1..] == t[1..] + [c];
      EndMore(ParseHostChar(s, t[0]), t[1..], c);
    }
  }

  lemma {:induction false} AfterIsEnd(at: bool, host: string, n: nat)
    requires n <= |host|
    ensures HostAfter(at, host, n) == HostEnd(HostInit(at), host[..n])
  {
    hide ParseHostChar;
    if n > 0 {
      AfterIsEnd(at, host, n - 1);
      EndMore(HostInit(at), host[..n - 1], host[n - 1]);
      assert host[..n] == host[..n - 1] + [host[n - 1]];
    }
  }

  lemma {:induction false} DeadEnd(t: string)
    ensures HostEnd(HostDead, t).HostDead?
    decreases |t|
  {
    if t != "" {
      DeadEnd(t[1..]);
    }
  }

  lemma {:induction false} PortEnd(s: HostState, t: string)
    requires s.HostPort? || s.HostPortStart?
    ensures HostDone(HostEnd(s, t)) <==> AllNum(t) && (t == "" ==> s.HostPort?)
    decreases |t|
  {
    if t != "" {
      DeadEnd(t[1..]);
      if IsNum(t[0]) {
        PortEnd(HostPort, t[1..]);
      }
      assert AllNum(t) <==> IsNum(t[0]) && AllNum(t[1..]) by {
        assert forall i | 0 < i < |t| :: t[i] == t[1..][i - 1];
      }
    }
  }

  lemma PortPartIs(t: string)
    requires t != "" && t[0] == ':'
    ensures HostDone(HostEnd(HostPortStart, t[1..])) <==> PortPart(t)
  {
    PortEnd(HostPortStart, t[1..]);
  }

  lemma Classes(c: char)
    ensures IsHostChar(c) <==> NameByte(c)
    ensures IsHex(c) || c == ':' <==> AddressByte(c)
  {
  }

  /** Within a name. */
  lemma {:induction false} NameEnd(t: string)
    ensures var k := Until(t, ':');
      HostDone(HostEnd(Host, t)) <==> AllName(t[..k]) && PortPart(t[k..])
    decreases |t|
  {
    hide NameByte, PortPart, ParseHostChar;
    if t == "" {
      NoPort();
    } else {
      NameStep(t[0]);
      Classes(t[0]);
      DeadEnd(t[1..]);
      if t[0] == ':' {
        PortPartIs(t);
      } else {
        NameCons(t);
        if NameByte(t[0]) {
          NameEnd(t[1..]);
        }
      }
    }
  }

  lemma NoPort()
    ensures PortPart("")
  {
  }

  lemma NameStep(c: char)
    ensures ParseHostChar(Host, c) == if IsHostChar(c) then Host else if c == ':' then HostPortStart else HostDead
    ensures ParseHostChar(HostStart, c) == if c == '[' then HostV6Start else if IsHostChar(c) then Host else HostDead
  {
  }

  lemma UntilCons(t: string, c: char)
    requires t != "" && t[0] != c
    ensures var k, j := Until(t, c), Until(t[1..], c);
      && k == j + 1 && t[..k] == [t[0]] + t[1..][..j] && t[k..] == t[1..][j..] && (k < |t| ==> t[k + 1..] == t[1..][j + 1..])
  {
  }

  lemma NameCons(t: string)
    requires t != "" && t[0] != ':'
    ensures var k, j := Until(t, ':'), Until(t[1..], ':');
      k == j + 1 && t[k..] == t[1..][j..] && (AllName(t[..k]) <==> NameByte(t[0]) && AllName(t[1..][..j]))
  {
    hide NameByte, AllName, Until;
    UntilCons(t, ':');
    AllNameCons(t[0], t[1..][..Until(t[1..], ':')]);
  }

  lemma AllNameCons(c: char, s: string)
    ensures AllName([c] + s) <==> NameByte(c) && AllName(s)
  {
    hide NameByte;
    var t := [c] + s;
    assert t[0] == c && forall i | 0 < i < |t| :: t[i] == s[i - 1];
    if AllName(t) {
      forall i | 0 <= i < |s| ensures NameByte(s[i]) {
        assert NameByte(t[i + 1]);
      }
    }
  }

  /** Within an address in brackets. */
  lemma {:induction false} AddressEnd(s: HostState, t: string)
    requires s.HostV6? || s.HostV6Start?
    ensures var k := Until(t, ']');
      HostDone(HostEnd(s, t)) <==> k < |t| && (k == 0 ==> s.HostV6?) && AllAddress(t[..k]) && PortPart(t[k + 1..])
    decreases |t|
  {
    hide AddressByte, PortPart, ParseHostChar;
    if t != "" {
      AddressStep(s, t[0]);
      Classes(t[0]);
      DeadEnd(t[1..]);
      if t[0] == ']' {
        if s.HostV6? {
          BehindAddress(t[1..]);
        }
      } else {
        AddressCons(t);
        if AddressByte(t[0]) {
          AddressEnd(HostV6, t[1..]);
        }
      }
    }
  }

  lemma AddressStep(s: HostState, c: char)
    requires s.HostV6? || s.HostV6Start?
    ensures ParseHostChar(s, c) == if s.HostV6? && c == ']' then HostV6End else if IsHex(c) || c == ':' then HostV6 else HostDead
    ensures !IsHex(']')
  {
  }

  lemma BehindAddress(t: string)
    ensures HostDone(HostEnd(HostV6End, t)) <==> PortPart(t)
  {
    if t != "" {
      DeadEnd(t[1..]);
      if t[0] == ':' {
        PortPartIs(t);
      }
    }
  }

  lemma AddressCons(t: string)
    requires t != "" && t[0] != ']'
    ensures var k, j := Until(t, ']'), Until(t[1..], ']');
      && k == j + 1 && (k < |t| <==> j < |t[1..]|) && (k < |t| ==> t[k + 1..] == t[1..][j + 1..])
      && (AllAddress(t[..k]) <==> AddressByte(t[0]) && AllAddress(t[1..][..j]))
  {
    hide AddressByte, AllAddress, Until;
    UntilCons(t, ']');
    AllAddressCons(t[0], t[1..][..Until(t[1..], ']')]);
  }

  lemma AllAddressCons(c: char, s: string)
    ensures AllAddress([c] + s) <==> AddressByte(c) && AllAddress(s)
  {
    hide AddressByte;
    var t := [c] + s;
    assert t[0] == c && forall i | 0 < i < |t| :: t[i] == s[i - 1];
    if AllAddress(t) {
      forall i | 0 <= i < |s| ensures AddressByte(s[i]) {
        assert AddressByte(t[i + 1]);
      }
    }
  }

  lemma StartEnd(t: string)
    ensures HostDone(HostEnd(HostStart, t)) <==> HostPart(t)
  {
    hide NameByte, AddressByte, PortPart, ParseHostChar;
    if t == "" {
      assert Until(t, ':') == 0;
    } else {
      NameStep(t[0]);
      Classes(t[0]);
      DeadEnd(t[1..]);
      if t[0] == '[' {
        AddressEnd(HostV6Start, t[1..]);
        BracketCons(t);
      } else if t[0] != ':' {
        NameCons(t);
        if NameByte(t[0]) {
          NameEnd(t[1..]);
        }
      } else {
        ColonNoName();
      }
    }
  }

  lemma ColonNoName()
    ensures !IsHostChar(':')
  {
  }

  lemma BracketCons(t: string)
    requires t != "" && t[0] == '['
    ensures var k, j := Until(t, ']'), Until(t[1..], ']');
      && k == j + 1 && (k < |t| <==> j < |t[1..]|) && t[1..k] == t[1..][..j] && (k < |t| ==> t[k + 1..] == t[1..][j + 1..])
  {
  }

  lemma {:induction false} UserEnd(s: HostState, t: string)
    requires s.Userinfo? || s.UserinfoStart?
    ensures HostDone(HostEnd(s, t)) <==> HostGrammar(true, t)
    decreases |t|
  {
    hide IsUserinfoChar, HostPart, ParseHostChar;
    if t != "" {
      UserStep(s, t[0]);
      DeadEnd(t[1..]);
      if t[0] == '@' {
        StartEnd(t[1..]);
      } else {
        UserCons(t);
        if IsUserinfoChar(t[0]) {
          UserEnd(Userinfo, t[1..]);
        }
      }
    }
  }

  lemma UserStep(s: HostState, c: char)
    requires s.Userinfo? || s.UserinfoStart?
    ensures ParseHostChar(s, c) == if c == '@' then HostStart else if IsUserinfoChar(c) then Userinfo else HostDead
  {
  }

  lemma UserCons(t: string)
    requires t != "" && t[0] != '@'
    ensures HostGrammar(true, t) <==> IsUserinfoChar(t[0]) && HostGrammar(true, t[1..])
  {
    hide IsUserinfoChar, HostPart;
    var u, k := t[1..], Until(t, '@');
    assert k == Until(u, '@') + 1;
    assert forall i | 0 <= i < |u| :: u[i] == t[i + 1];
    if k < |t| {
      assert t[k + 1..] == u[k..];
    }
    if HostGrammar(true, u) && IsUserinfoChar(t[0]) {
      forall i | 0 <= i < k ensures IsUserinfoChar(t[i]) {
        assert i > 0 ==> IsUserinfoChar(u[i - 1]);
      }
    }
  }

  /** Exactly these texts are accepted between schema and path. */
  lemma HostIff(at: bool, host: string)
    ensures HostDone(HostAfter(at, host, |host|)) <==> HostGrammar(at, host)
  {
    hide HostDone, HostGrammar, HostEnd, ParseHostChar;
    AfterIsEnd(at, host, |host|);
    assert host[..|host|] == host;
    if at {
      UserEnd(UserinfoStart, host);
    } else {
      StartEnd(host);
      NoUser(host);
    }
  }

  lemma NoUser(host: string)
    ensures HostGrammar(false, host) <==> HostPart(host)
  {
  }

  // ---------- The whole URL ----------

  lemma {:induction false} UrlEndMore(s: State, t: string, c: char)
    ensures UrlEnd(s, t + [c]) == ParseUrlChar(UrlEnd(s, t), c)
    decreases |t|
  {
    hide ParseUrlChar;
    if t == "" {
      assert [c][1..] == "" && "" + [c] == [c];
    } else {
      assert (t + [c])[1..] == t[1..] + [c];
      UrlEndMore(ParseUrlChar(s, t[0]), t[1..], c);
    }
  }

  lemma {:induction false} AfterIsUrlEnd(connect: bool, url: string, n: nat)
    requires n <= |url|
    ensures After(connect, url, n) == UrlEnd(UrlStart(connect), url[..n])
  {
    hide ParseUrlChar;
    if n > 0 {
      AfterIsUrlEnd(connect, url, n - 1);
      UrlEndMore(UrlStart(connect), url[..n - 1], url[n - 1]);
      assert url[..n] == url[..n - 1] + [url[n - 1]];
    }
  }

  /** Where the server starts: behind "://", or at once for CONNECT, or nowhere. */
  function ServerStart(connect: bool, url: string): (k: nat)
    ensures k <= |url|
  {
    if connect then 0 else if SchemaTarget(url) then SchemaEnd(url) + 3 else |url|
  }

  /** The bytes of the server. */
  function Server(connect: bool, url: string): string {
    var rest := url[ServerStart(connect, url)..];
    rest[..ServerEnd(rest)]
  }

  lemma PrefixAlive(connect: bool, url: string, n: nat)
    requires n <= |url| && !After(connect, url, |url|).Dead?
    ensures !After(connect, url, n).Dead?
  {
    if After(connect, url, n).Dead? {
      StaysDead(connect, url, n, |url|);
    }
  }

  lemma {:induction false} ServerEndPrefix(t: string, n: nat)
    requires n <= |t|
    ensures ServerEnd(t[..n]) == if n < ServerEnd(t) then n else ServerEnd(t)
    decreases |t|
  {
    if n > 0 && t[0] != '/' && t[0] != '?' {
      assert t[..n][1..] == t[1..][..n - 1];
      ServerEndPrefix(t[1..], n - 1);
    }
  }

  /** From the start of a server on, exactly its bytes lead to server states. */
  lemma InServerIs(t: string, n: nat)
    requires 0 < n <= |t| && !UrlEnd(ReqServerStart, t[..n]).Dead?
    ensures IsServer(UrlEnd(ReqServerStart, t[..n])) <==> n <= ServerEnd(t)
  {
    hide ParseUrlChar, Authority;
    ServerEnds(ReqServerStart, t[..n]);
    ServerEndPrefix(t, n);
  }

  lemma {:induction false} SplitUrlEnd(s: State, a: string, b: string)
    ensures UrlEnd(s, a + b) == UrlEnd(UrlEnd(s, a), b)
    decreases |a|
  {
    hide ParseUrlChar;
    if a == "" {
      assert a + b == b;
    } else {
      assert (a + b)[1..] == a[1..] + b;
      SplitUrlEnd(ParseUrlChar(s, a[0]), a[1..], b);
    }
  }

  lemma {:induction false} RankGrows(connect: bool, url: string, n: nat, m: nat)
    requires n <= m <= |url| && !After(connect, url, |url|).Dead?
    ensures UrlRank(After(connect, url, n)) <= UrlRank(After(connect, url, m))
    decreases m
  {
    hide ParseUrlChar, UrlRank;
    if n < m {
      RankGrows(connect, url, n, m - 1);
      PrefixAlive(connect, url, m);
      RankStep(After(connect, url, m - 1), url[m - 1]);
    }
  }

  lemma Ranks(s: State)
    ensures IsServer(s) ==> UrlRank(s) == 5
    ensures UrlOpen(s) ==> UrlRank(s) <= 4
    ensures InTail(s) ==> UrlRank(s) >= 6
    ensures s.ReqServerStart? ==> UrlRank(s) == 4
    ensures s.ReqSchema? ==> UrlRank(s) == 1
    ensures Region(s) == UF_HOST <==> IsServer(s)
    ensures Region(s) == UF_SCHEMA <==> s.ReqSchema?
  {
  }

  lemma {:induction false} LettersStay(t: string, n: nat)
    requires n <= SchemaEnd(t)
    ensures UrlEnd(ReqSchema, t[..n]) == ReqSchema
    decreases n
  {
    hide ParseUrlChar;
    if n > 0 {
      SchemaBytes(t[0]);
      assert t[..n][1..] == t[1..][..n - 1];
      LettersStay(t[1..], n - 1);
    }
  }

  lemma LettersLead(url: string)
    requires SchemaEnd(url) > 0
    ensures UrlEnd(ReqSpacesBeforeUrl, url[..SchemaEnd(url)]) == ReqSchema
  {
    hide ParseUrlChar;
    var k, t := SchemaEnd(url), url[1..];
    FirstStep(url[..k]);
    LetterNotSlash(url[0]);
    LettersStay(t, k - 1);
    assert url[..k][1..] == t[..k - 1];
  }

  lemma LetterNotSlash(c: char)
    requires Letter(c)
    ensures c != '/' && c != '*'
  {
  }

  /** The state in front of the server of a URL with a schema. */
  lemma BehindSlashes(url: string)
    requires SchemaTarget(url)
    ensures UrlEnd(ReqSpacesBeforeUrl, url[..SchemaEnd(url) + 3]) == ReqServerStart
  {
    hide ParseUrlChar, Authority, UrlEnd;
    var k := SchemaEnd(url);
    LettersLead(url);
    assert url[..k + 3] == url[..k] + url[k..k + 3];
    SplitUrlEnd(ReqSpacesBeforeUrl, url[..k], "://");
    ColonSlashes();
  }

  lemma OneByte(s: State, c: char)
    ensures UrlEnd(s, [c]) == ParseUrlChar(s, c)
  {
    hide ParseUrlChar;
    assert [c][1..] == "";
  }

  lemma ColonSlashes()
    ensures UrlEnd(ReqSchema, "://") == ReqServerStart
  {
    hide ParseUrlChar, UrlEnd;
    SchemaBytes(':');
    SchemaBytes('/');
    OneByte(ReqSchema, ':');
    OneByte(ReqSchemaSlash, '/');
    OneByte(ReqSchemaSlashSlash, '/');
    assert "://" == [':'] + ['/'] + ['/'];
    SplitUrlEnd(ReqSchema, [':'] + ['/'], ['/']);
    SplitUrlEnd(ReqSchema, [':'], ['/']);
  }

  /** The server states are reached by the bytes of the server. */
  lemma ServerStates(connect: bool, url: string, i: nat)
    requires !After(connect, url, |url|).Dead? && i < |url|
    ensures IsServer(After(connect, url, i + 1)) <==>
              ServerStart(connect, url) <= i < ServerStart(connect, url) + |Server(connect, url)|
  {
    hide ParseUrlChar, UrlRank, Authority, SchemaTarget;
    AfterIsUrlEnd(connect, url, i + 1);
    PrefixAlive(connect, url, i + 1);
    if connect {
      assert url[0..] == url;
      InServerIs(url, i + 1);
    } else if SchemaTarget(url) {
      SchemaServer(url, i);
    } else {
      NoServer(url, i);
    }
  }

  lemma SliceBehind(t: string, j: nat, n: nat)
    requires j <= n <= |t|
    ensures t[..n] == t[..j] + t[j..][..n - j]
  {
  }

  lemma SchemaServer(url: string, i: nat)
    requires !After(false, url, |url|).Dead? && i < |url| && SchemaTarget(url)
    ensures IsServer(After(false, url, i + 1)) <==> ServerStart(false, url) <= i < ServerStart(false, url) + |Server(false, url)|
  {
    hide ParseUrlChar, UrlRank, Authority;
    var j := SchemaEnd(url) + 3;
    BehindSlashes(url);
    AfterIsUrlEnd(false, url, j);
    AfterIsUrlEnd(false, url, i + 1);
    PrefixAlive(false, url, i + 1);
    Ranks(After(false, url, i + 1));
    Ranks(After(false, url, j));
    if i < j {
      RankGrows(false, url, i + 1, j);
    } else {
      var rest := url[j..];
      SliceBehind(url, j, i + 1);
      SplitUrlEnd(ReqSpacesBeforeUrl, url[..j], rest[..i + 1 - j]);
      InServerIs(rest, i + 1 - j);
    }
  }

  lemma NoServer(url: string, i: nat)
    requires !After(false, url, |url|).Dead? && i < |url| && !SchemaTarget(url)
    ensures !IsServer(After(false, url, i + 1))
  {
    hide ParseUrlChar, UrlRank, Authority, SchemaTarget, Tail;
    AfterIsUrlEnd(false, url, |url|);
    assert url[..|url|] == url;
    AliveIff(false, url);
    TargetIff(false, url);
    Ranks(After(false, url, i + 1));
    if PathTarget(url) {
      AfterIsUrlEnd(false, url, 1);
      FirstStep(url[..1]);
      Ranks(After(false, url, 1));
      RankGrows(false, url, 1, i + 1);
    } else {
      EndsOpen(url);
      Ranks(After(false, url, |url|));
      RankGrows(false, url, i + 1, |url|);
    }
  }

  lemma EndsOpen(url: string)
    requires url != "" && !UrlEnd(ReqSpacesBeforeUrl, url).Dead? && !LegalTarget(false, url)
    ensures UrlOpen(UrlEnd(ReqSpacesBeforeUrl, url))
  {
    hide ParseUrlChar;
    AfterIsUrlEnd(false, url, |url|);
    assert url[..|url|] == url;
  }

  /** The host region is the server. */
  lemma HostIsServer(connect: bool, url: string)
    requires !After(connect, url, |url|).Dead?
    ensures HostText(connect, url) == Server(connect, url)
  {
    hide ParseUrlChar, Region, After, Regions, HostStartsAt, HostSize, ServerStart, Server, IsServer;
    var h, n := HostStartsAt(connect, url), HostSize(connect, url);
    var s, m := ServerStart(connect, url), |Server(connect, url)|;
    HostIsOneRun(connect, url);
    ServerSlice(connect, url);
    forall i | 0 <= i < |url| ensures Within(i, h, n) <==> Within(i, s, m) {
      ServerStates(connect, url, i);
      Ranks(After(connect, url, i + 1));
      assert Regions(connect, url, |url|)[i] == Region(After(connect, url, i + 1));
    }
    SameRun(|url|, h, n, s, m);
  }

  lemma ServerSlice(connect: bool, url: string)
    ensures var s, m := ServerStart(connect, url), |Server(connect, url)|;
      s + m <= |url| && Server(connect, url) == url[s..s + m]
  {
    hide ServerStart;
  }

  predicate Within(i: nat, a: nat, n: nat) {
    a <= i < a + n
  }

  lemma SameRun(size: nat, h: nat, n: nat, s: nat, m: nat)
    requires h + n <= size && s + m <= size && forall i | 0 <= i < size :: Within(i, h, n) <==> Within(i, s, m)
    ensures n == m && (n > 0 ==> h == s)
  {
    if n > 0 {
      assert Within(h, s, m) && Within(h + n - 1, s, m);
    }
    if m > 0 {
      assert Within(s, h, n) && Within(s + m - 1, h, n);
    }
  }

  /** A schema is there if and only if the URL starts with a letter. */
  lemma SchemaIsThere(connect: bool, url: string)
    requires !After(connect, url, |url|).Dead?
    ensures Count(Regions(connect, url, |url|), UF_SCHEMA) > 0 <==> !connect && url != "" && Letter(url[0])
  {
    hide ParseUrlChar, Count, Region, UrlRank;
    var q := Regions(connect, url, |url|);
    CountIs(q, UF_SCHEMA);
    if url != "" {
      AfterIsUrlEnd(connect, url, 1);
      PrefixAlive(connect, url, 1);
      assert url[..1] == [url[0]];
      SchemaBytes(url[0]);
      Ranks(After(connect, url, 1));
      assert q[0] == Region(After(connect, url, 1));
      if !(!connect && Letter(url[0])) {
        FirstIsHigh(connect, url);
        forall i | 0 <= i < |url| ensures q[i] != UF_SCHEMA {
          RankGrows(connect, url, 1, i + 1);
          Ranks(After(connect, url, i + 1));
        }
      }
    }
  }

  lemma FirstIsHigh(connect: bool, url: string)
    requires url != "" && !After(connect, url, 1).Dead? && (connect || !Letter(url[0]))
    ensures UrlRank(After(connect, url, 1)) >= 4
  {
    hide ParseUrlChar;
    AfterIsUrlEnd(connect, url, 1);
    assert url[..1] == [url[0]] && [url[0]][1..] == "";
    if connect {
      ServerStep(ReqServerStart, url[0]);
    } else {
      SchemaBytes(url[0]);
    }
  }

  /** What http_parser_parse_url takes apart: nothing, a path or a *, or a schema with a host; for CONNECT a host,
      or none but a path. */
  predicate UrlGrammar(connect: bool, url: string) {
    var server := Server(connect, url);
    if connect then Authority(url) && (server != "" ==> HostGrammar('@' in server, server))
    else url == "" || PathTarget(url) || (SchemaTarget(url) && HostGrammar('@' in server, server))
  }

  lemma NoHostGrammar()
    ensures !HostGrammar(false, "")
  {
  }

  /** Exactly these URLs pass both loops. */
  lemma ParsedIff(connect: bool, url: string)
    ensures Parsed(connect, url) <==> UrlGrammar(connect, url)
  {
    hide ParseUrlChar, Count, Region, After, Regions, Authority, HostGrammar, HostDone, SchemaTarget, Tail, Server, HostText, HostAfter, FoundAt;
    AfterIsUrlEnd(connect, url, |url|);
    assert url[..|url|] == url;
    AliveIff(connect, url);
    if !After(connect, url, |url|).Dead? {
      HostIsServer(connect, url);
      FoundAtInHost(connect, url);
      HostIff(FoundAt(connect, url, |url|), HostText(connect, url));
      SchemaIsThere(connect, url);
      NoHostGrammar();
      ServerOrNot(connect, url);
      assert |HostText(connect, url)| == HostSize(connect, url) by { HostTextSize(connect, url); }
    }
  }

  lemma HostTextSize(connect: bool, url: string)
    ensures |HostText(connect, url)| == HostSize(connect, url)
  {
    hide Count, First, Regions;
  }

  lemma ServerOrNot(connect: bool, url: string)
    ensures !connect && !SchemaTarget(url) ==> Server(connect, url) == ""
    ensures SchemaTarget(url) || SchemaOnly(url) ==> url != "" && Letter(url[0])
    ensures PathTarget(url) ==> !Letter(url[0]) && !SchemaTarget(url) && !SchemaOnly(url)
    ensures SchemaTarget(url) ==> !SchemaOnly(url)
  {
    hide Authority;
    assert url[|url|..] == "";
    if SchemaTarget(url) {
      assert |url[SchemaEnd(url)..]| > 3;
    }
  }
}
