/** What the parts of a URL are: every byte is labelled by the two state machines of the splitter, and
    each label fills one run of bytes. */
module UrlParts {
  import opened Bytes
  import opened HttpTypes
  import opened Dispatch

  const UF_SCHEMA: nat := 0
  const UF_HOST: nat := 1
  const UF_PORT: nat := 2
  const UF_PATH: nat := 3
  const UF_QUERY: nat := 4
  const UF_FRAGMENT: nat := 5
  const UF_USERINFO: nat := 6
  const UF_MAX: nat := 7

  datatype HostState =
    | HostDead | UserinfoStart | Userinfo | HostStart | HostV6Start | Host | HostV6 | HostV6End
    | HostPortStart | HostPort

  /** http_parse_host_char */
  function ParseHostChar(s: HostState, ch: char): HostState {
    if s.Userinfo? || s.UserinfoStart? then
      if ch == '@' then HostStart else if IsUserinfoChar(ch) then Userinfo else HostDead
    else if s.HostStart? then
      if ch == '[' then HostV6Start else if IsHostChar(ch) then Host else HostDead
    else if s.Host? then
      if IsHostChar(ch) then Host else if ch == ':' then HostPortStart else HostDead
    else if s.HostV6End? then
      if ch == ':' then HostPortStart else HostDead
    else if s.HostV6? || s.HostV6Start? then
      if s.HostV6? && ch == ']' then HostV6End
      else if IsHex(ch) || ch == ':' then HostV6
      else HostDead
    else if s.HostPort? || s.HostPortStart? then
      if IsNum(ch) then HostPort else HostDead
    else HostDead
  }

  predicate IsServer(s: State) {
    s.ReqServer? || s.ReqServerWithAt?
  }

  /** The part a byte belongs to, by the state it leads to; UF_MAX for a delimiter. */
  function Region(s: State): (p: nat)
    ensures p <= UF_MAX
  {
    if s.ReqSchema? then UF_SCHEMA
    else if IsServer(s) then UF_HOST
    else if s.ReqPath? then UF_PATH
    else if s.ReqQueryString? then UF_QUERY
    else if s.ReqFragment? then UF_FRAGMENT
    else UF_MAX
  }

  /** The same within the region of the host. */
  function HostRegion(s: HostState): (p: nat)
    ensures p == UF_MAX || p == UF_HOST || p == UF_PORT || p == UF_USERINFO
  {
    if s.Host? || s.HostV6? then UF_HOST
    else if s.HostPort? then UF_PORT
    else if s.Userinfo? then UF_USERINFO
    else UF_MAX
  }

  function Start(connect: bool): State {
    if connect then ReqServerStart else ReqSpacesBeforeUrl
  }

  /** The state after the first `n` bytes. */
  function After(connect: bool, url: string, n: nat): (s: State)
    requires n <= |url|
    ensures n > 0 ==> s.Dead? || ReadsUrl(s)
  {
    if n == 0 then Start(connect) else ParseUrlChar(After(connect, url, n - 1), url[n - 1])
  }

  function Regions(connect: bool, url: string, n: nat): (q: seq<nat>)
    requires n <= |url|
    ensures |q| == n && forall k :: 0 <= k < n ==> q[k] == Region(After(connect, url, k + 1))
  {
    if n == 0 then [] else Regions(connect, url, n - 1) + [Region(After(connect, url, n))]
  }

  /** found_at: some byte led to ReqServerWithAt. */
  predicate FoundAt(connect: bool, url: string, n: nat)
    requires n <= |url|
  {
    n > 0 && (FoundAt(connect, url, n - 1) || After(connect, url, n).ReqServerWithAt?)
  }

  function HostInit(at: bool): HostState {
    if at then UserinfoStart else HostStart
  }

  function HostAfter(at: bool, host: string, n: nat): (s: HostState)
    requires n <= |host|
  {
    if n == 0 then HostInit(at) else ParseHostChar(HostAfter(at, host, n - 1), host[n - 1])
  }

  function HostRegions(at: bool, host: string, n: nat): (q: seq<nat>)
    requires n <= |host|
    ensures |q| == n && forall k :: 0 <= k < n ==> q[k] == HostRegion(HostAfter(at, host, k + 1))
  {
    if n == 0 then [] else HostRegions(at, host, n - 1) + [HostRegion(HostAfter(at, host, n))]
  }

  /** The states http_parse_host may end in. */
  predicate HostDone(s: HostState) {
    s.Host? || s.HostV6End? || s.HostPort?
  }

  // ---- runs of equal labels

  function Count(q: seq<nat>, p: nat): nat {
    if q == [] then 0 else Count(q[..|q| - 1], p) + if q[|q| - 1] == p then 1 else 0
  }

  /** Where `p` first occurs; the length if nowhere. */
  function First(q: seq<nat>, p: nat): nat {
    if q == [] then 0
    else if Count(q[..|q| - 1], p) > 0 then First(q[..|q| - 1], p)
    else if q[|q| - 1] == p then |q| - 1
    else |q|
  }

  /** A part that comes back has not been left in between. */
  predicate Runs(q: seq<nat>) {
    q == [] ||
    var k := |q| - 1;
    Runs(q[..k]) && (q[k] != UF_MAX && Count(q[..k], q[k]) > 0 ==> q[k - 1] == q[k])
  }

  /** A part is one run of bytes. */
  lemma {:induction false} RunIs(q: seq<nat>, p: nat)
    requires Runs(q) && p != UF_MAX
    ensures First(q, p) + Count(q, p) <= |q|
    ensures Count(q, p) == 0 ==> First(q, p) == |q|
    ensures forall k :: 0 <= k < |q| ==> (q[k] == p <==> First(q, p) <= k < First(q, p) + Count(q, p))
  {
    if q != [] {
      var init := q[..|q| - 1];
      RunIs(init, p);
      if q[|q| - 1] == p && Count(init, p) > 0 {
        assert init[|init| - 1] == p;
      }
      forall k | 0 <= k < |q|
        ensures q[k] == p <==> First(q, p) <= k < First(q, p) + Count(q, p)
      {
        if k < |init| {
          assert q[k] == init[k];
        }
      }
    }
  }

  lemma {:induction false} CountIs(q: seq<nat>, p: nat)
    ensures Count(q, p) > 0 <==> p in q
  {
    if q != [] {
      CountIs(q[..|q| - 1], p);
      assert q == q[..|q| - 1] + [q[|q| - 1]];
    }
  }

  // ---- no part is entered twice

  function UrlRank(s: State): nat {
    if s.ReqSchema? then 1
    else if s.ReqSchemaSlash? then 2
    else if s.ReqSchemaSlashSlash? then 3
    else if s.ReqServerStart? then 4
    else if IsServer(s) then 5
    else if s.ReqPath? then 6
    else if s.ReqQueryStringStart? then 7
    else if s.ReqQueryString? then 8
    else if s.ReqFragmentStart? then 9
    else if s.ReqFragment? then 10
    else 0
  }

  function Level(p: nat): nat {
    if p == UF_SCHEMA then 1
    else if p == UF_HOST then 5
    else if p == UF_PATH then 6
    else if p == UF_QUERY then 8
    else if p == UF_FRAGMENT then 10
    else 11
  }

  lemma RankStep(s: State, ch: char)
    requires !ParseUrlChar(s, ch).Dead?
    ensures UrlRank(s) <= UrlRank(ParseUrlChar(s, ch))
    ensures Region(ParseUrlChar(s, ch)) != UF_MAX ==>
              UrlRank(ParseUrlChar(s, ch)) == Level(Region(ParseUrlChar(s, ch)))
    ensures Region(ParseUrlChar(s, ch)) == Region(s) || UrlRank(s) < Level(Region(ParseUrlChar(s, ch)))
  {
  }

  lemma {:induction false} RegionRuns(connect: bool, url: string, n: nat)
    requires n <= |url| && !After(connect, url, n).Dead?
    ensures Runs(Regions(connect, url, n))
    ensures forall p | p in Regions(connect, url, n) && p != UF_MAX :: Level(p) <= UrlRank(After(connect, url, n))
  {
    hide ParseUrlChar;
    if n > 0 {
      var s, q := After(connect, url, n - 1), Regions(connect, url, n - 1);
      assert !s.Dead? by {
        DeadUrl(url[n - 1]);
      }
      RegionRuns(connect, url, n - 1);
      RankStep(s, url[n - 1]);
      var p := Region(After(connect, url, n));
      CountIs(q, p);
      assert Regions(connect, url, n)[..n - 1] == q;
    }
  }

  lemma DeadUrl(ch: char)
    ensures ParseUrlChar(Dead, ch).Dead?
  {
  }

  function HostRank(s: HostState): nat {
    match s
    case HostDead => 0
    case UserinfoStart => 0
    case Userinfo => 1
    case HostStart => 2
    case HostV6Start => 3
    case Host => 4
    case HostV6 => 5
    case HostV6End => 6
    case HostPortStart => 7
    case HostPort => 8
  }

  function HostLevel(p: nat): nat {
    if p == UF_USERINFO then 1 else if p == UF_HOST then 4 else if p == UF_PORT then 8 else 9
  }

  lemma HostRankStep(s: HostState, ch: char)
    requires !ParseHostChar(s, ch).HostDead?
    ensures HostRank(s) <= HostRank(ParseHostChar(s, ch))
    ensures HostRegion(ParseHostChar(s, ch)) != UF_MAX ==>
              HostRank(ParseHostChar(s, ch)) >= HostLevel(HostRegion(ParseHostChar(s, ch)))
    ensures ParseHostChar(s, ch) == s || HostRank(s) < HostLevel(HostRegion(ParseHostChar(s, ch)))
  {
  }

  lemma {:induction false} HostRuns(at: bool, host: string, n: nat)
    requires n <= |host| && !HostAfter(at, host, n).HostDead?
    ensures Runs(HostRegions(at, host, n))
    ensures forall p | p in HostRegions(at, host, n) && p != UF_MAX :: HostLevel(p) <= HostRank(HostAfter(at, host, n))
  {
    hide ParseHostChar;
    if n > 0 {
      var s, q := HostAfter(at, host, n - 1), HostRegions(at, host, n - 1);
      assert !s.HostDead? by {
        DeadHost(host[n - 1]);
      }
      HostRuns(at, host, n - 1);
      HostRankStep(s, host[n - 1]);
      var p := HostRegion(HostAfter(at, host, n));
      CountIs(q, p);
      assert HostRegions(at, host, n)[..n - 1] == q;
    }
  }

  lemma DeadHost(ch: char)
    ensures ParseHostChar(HostDead, ch).HostDead?
  {
  }
}
