/** The URL splitter: http_parser_parse_url and http_parse_host, loops that fill in the offsets and
    lengths of the parts. */
module Url {
  import opened Bytes
  import opened HttpTypes
  import opened Dispatch
  import opened UrlParts

  // ---- appending to sequences of labels

  lemma {:induction false} Appended(a: seq<nat>, b: seq<nat>, p: nat)
    ensures Count(a + b, p) == Count(a, p) + Count(b, p)
    ensures First(a + b, p) == if Count(a, p) > 0 then First(a, p) else |a| + First(b, p)
  {
    if b == [] {
      assert a + b == a;
      Absent(a, p);
    } else {
      var init := b[..|b| - 1];
      assert (a + b)[..|a + b| - 1] == a + init;
      Appended(a, init, p);
      Absent(init, p);
    }
  }

  lemma {:induction false} Absent(q: seq<nat>, p: nat)
    ensures Count(q, p) == 0 ==> First(q, p) == |q|
    ensures First(q, p) + Count(q, p) <= |q|
  {
    if q != [] {
      Absent(q[..|q| - 1], p);
    }
  }

  lemma OneMore(q: seq<nat>, x: nat, p: nat)
    ensures Count(q + [x], p) == Count(q, p) + if x == p then 1 else 0
    ensures First(q + [x], p) == if Count(q, p) > 0 then First(q, p) else if x == p then |q| else |q| + 1
  {
    assert (q + [x])[..|q|] == q;
  }

  lemma {:induction false} NoOther(q: seq<nat>, p: nat)
    requires p !in q
    ensures Count(q, p) == 0
  {
    CountIs(q, p);
  }

  // ---- labels of a whole URL

  function HostStartsAt(connect: bool, url: string): (h: nat)
    ensures h + HostSize(connect, url) <= |url|
  {
    Absent(Regions(connect, url, |url|), UF_HOST);
    First(Regions(connect, url, |url|), UF_HOST)
  }

  function HostSize(connect: bool, url: string): (k: nat) {
    Count(Regions(connect, url, |url|), UF_HOST)
  }

  /** The bytes from the user information to the port. */
  function HostText(connect: bool, url: string): string {
    url[HostStartsAt(connect, url)..HostStartsAt(connect, url) + HostSize(connect, url)]
  }

  function HostLabels(connect: bool, url: string): (q: seq<nat>)
    ensures |q| == HostSize(connect, url)
  {
    HostRegions(FoundAt(connect, url, |url|), HostText(connect, url), HostSize(connect, url))
  }

  /** The part every byte belongs to. */
  function Labels(connect: bool, url: string): (q: seq<nat>)
    ensures |q| == |url|
  {
    var h := HostStartsAt(connect, url);
    var q := Regions(connect, url, |url|);
    q[..h] + HostLabels(connect, url) + q[h + HostSize(connect, url)..]
  }

  predicate HasServer(connect: bool, url: string) {
    Count(Regions(connect, url, |url|), UF_SCHEMA) > 0 || HostSize(connect, url) > 0
  }

  predicate HostAccepted(connect: bool, url: string) {
    HostDone(HostAfter(FoundAt(connect, url, |url|), HostText(connect, url), HostSize(connect, url)))
  }

  /** The digits from `i` on, as strtoul finds them: it does not know where the URL ends. */
  function DigitsFrom(memory: string, i: nat): (d: string)
    requires i <= |memory|
    ensures AllNum(d) && i + |d| <= |memory| && d == memory[i..i + |d|]
    ensures i + |d| == |memory| || !IsNum(memory[i + |d|])
    decreases |memory| - i
  {
    if i < |memory| && IsNum(memory[i]) then [memory[i]] + DigitsFrom(memory, i + 1) else ""
  }

  /** The port a URL of `n` bytes at the start of the memory is given. */
  function PortOf(connect: bool, memory: string, n: nat): nat
    requires n <= |memory|
  {
    var q := Labels(connect, memory[..n]);
    Absent(q, UF_PORT);
    if Count(q, UF_PORT) > 0 then DecValue(DigitsFrom(memory, First(q, UF_PORT))) else 0
  }

  /** The region of the host lies where 16 bits reach. */
  predicate HostFits(connect: bool, url: string) {
    HostSize(connect, url) == 0 || HostStartsAt(connect, url) + HostSize(connect, url) <= 65535
  }

  /** No part starts behind 65535 or is longer. */
  predicate AllLow(q: seq<nat>) {
    forall p | 0 <= p < UF_MAX && Count(q, p) > 0 :: First(q, p) <= 65535 && Count(q, p) <= 65535
  }

  /** Both machines come to an end in a good state. */
  predicate Parsed(connect: bool, url: string) {
    && !After(connect, url, |url|).Dead?
    && (HasServer(connect, url) ==> HostAccepted(connect, url))
  }

  /** The parts are a host and a port, as a CONNECT request has them. */
  predicate HostAndPort(q: seq<nat>) {
    forall p | 0 <= p < UF_MAX :: Count(q, p) > 0 <==> p == UF_HOST || p == UF_PORT
  }

  /** Which URLs are accepted. */
  predicate Accepted(connect: bool, memory: string, n: nat)
    requires n <= |memory|
  {
    var url := memory[..n];
    && Parsed(connect, url)
    && (connect ==> HostAndPort(Labels(connect, url)))
    && PortOf(connect, memory, n) <= 65535
  }

  /** The parts within the region of the host. */
  predicate Inner(p: nat) {
    p == UF_HOST || p == UF_PORT || p == UF_USERINFO
  }

  lemma OneMoreOfAll(q: seq<nat>, x: nat)
    ensures forall p: nat :: Count(q + [x], p) == Count(q, p) + if x == p then 1 else 0
    ensures forall p: nat :: Count(q, p) > 0 ==> First(q + [x], p) == First(q, p)
  {
    forall p: nat
      ensures Count(q + [x], p) == Count(q, p) + if x == p then 1 else 0
      ensures Count(q, p) > 0 ==> First(q + [x], p) == First(q, p)
    {
      OneMore(q, x, p);
    }
  }

  lemma Wraps(n: nat)
    ensures (n % 65536 + 1) % 65536 == (n + 1) % 65536
  {
  }

  lemma Low(n: nat)
    ensures n % 65536 == n <==> n <= 65535
  {
  }

  /** struct http_parser_url */
  class HttpParserUrl {
    var fieldSet: set<nat>
    var port: nat
    const off: array<nat>
    const len: array<nat>

    ghost predicate Valid() {
      off.Length == UF_MAX && len.Length == UF_MAX && off != len
    }

    ghost predicate Zeroed()
      requires Valid()
      reads off, len
    {
      forall p | 0 <= p < UF_MAX :: off[p] == 0 && len[p] == 0
    }

    constructor ()
      ensures Valid() && Zeroed() && fresh(off) && fresh(len)
    {
      fieldSet, port := {}, 0;
      off, len := new nat[UF_MAX](_ => 0), new nat[UF_MAX](_ => 0);
    }

    /** The part `p` is the run of `p` in the labels `q` of the bytes from `base` on, in 16 bits. */
    ghost predicate Holds(q: seq<nat>, base: nat, p: nat)
      requires Valid() && p < UF_MAX
      reads this, off, len
    {
      Count(q, p) > 0 ==>
        p in fieldSet && off[p] == (base + First(q, p)) % 65536 && len[p] == Count(q, p) % 65536
    }

    /** The parts are those that the labels `q` make. */
    ghost predicate Describes(q: seq<nat>)
      requires Valid()
      reads this, off, len
    {
      && (forall p: nat :: p in fieldSet <==> p < UF_MAX && Count(q, p) > 0)
      && (forall p | p in fieldSet :: off[p] == First(q, p) && len[p] == Count(q, p))
    }

    /** The parts are those, in 16 bits. */
    ghost predicate DescribesLow(q: seq<nat>)
      requires Valid()
      reads this, off, len
    {
      && (forall p: nat :: p in fieldSet <==> p < UF_MAX && Count(q, p) > 0)
      && (forall p | p in fieldSet :: off[p] == First(q, p) % 65536 && len[p] == Count(q, p) % 65536)
    }

    /** So the parts are the true ones if and only if no part starts behind 65535 or is longer. */
    lemma DescribesIff(q: seq<nat>)
      requires Valid() && DescribesLow(q)
      ensures Describes(q) <==> AllLow(q)
    {
      forall p | 0 <= p < UF_MAX && Count(q, p) > 0
        ensures p in fieldSet
        ensures off[p] == First(q, p) && len[p] == Count(q, p) <==> First(q, p) <= 65535 && Count(q, p) <= 65535
      {
        Low(First(q, p));
        Low(Count(q, p));
      }
      if Describes(q) {
        forall p | 0 <= p < UF_MAX && Count(q, p) > 0 ensures First(q, p) <= 65535 && Count(q, p) <= 65535 {
          assert p in fieldSet;
        }
      }
      if AllLow(q) {
        forall p: nat | p in fieldSet ensures off[p] == First(q, p) && len[p] == Count(q, p) {
          assert 0 <= p < UF_MAX && Count(q, p) > 0;
        }
        assert Describes(q);
      }
    }

    /** Every part is held, and `before` was set already. */
    ghost predicate HoldsAll(q: seq<nat>, base: nat, before: set<nat>)
      requires Valid()
      reads this, off, len
    {
      && (forall p | 0 <= p < UF_MAX :: Holds(q, base, p))
      && (forall p: nat :: p in fieldSet <==> p in before || (p < UF_MAX && Count(q, p) > 0))
    }

    /** Counts one byte at `i` into the part `p`; a delimiter belongs to no part. */
    method Grow(p: nat, i: nat, start: bool, ghost q: seq<nat>, ghost base: nat, ghost before: set<nat>)
      requires Valid() && p <= UF_MAX && i == base + |q|
      requires p < UF_MAX ==> (start <==> Count(q, p) == 0)
      requires HoldsAll(q, base, before)
      modifies this`fieldSet, off, len
      ensures HoldsAll(q + [p], base, before)
      ensures forall k | 0 <= k < UF_MAX && k != p :: off[k] == old(off[k]) && len[k] == old(len[k])
    {
      hide Count, First;
      OneMoreOfAll(q, p);
      OneMore(q, p, p);
      if p < UF_MAX {
        assert Holds(q, base, p);
        if start {
          off[p] := i % 65536;
          len[p] := 1;
          fieldSet := fieldSet + {p};
        } else {
          Wraps(Count(q, p));
          len[p] := (len[p] + 1) % 65536;
        }
        assert Holds(q + [p], base, p);
      }
      forall k | 0 <= k < UF_MAX && k != p ensures Holds(q + [p], base, k) {
        assert old(Holds(q, base, k));
      }
    }
  }

  lemma HostStarts(at: bool, host: string, n: nat)
    requires n < |host| && !HostAfter(at, host, n + 1).HostDead?
    requires HostRegion(HostAfter(at, host, n + 1)) != UF_MAX
    ensures HostAfter(at, host, n) != HostAfter(at, host, n + 1)
       <==> Count(HostRegions(at, host, n), HostRegion(HostAfter(at, host, n + 1))) == 0
  {
    hide ParseHostChar;
    var s, q, p := HostAfter(at, host, n), HostRegions(at, host, n), HostRegion(HostAfter(at, host, n + 1));
    assert !s.HostDead? by {
      DeadHost(host[n]);
    }
    HostRuns(at, host, n);
    HostRankStep(s, host[n]);
    CountIs(q, p);
    if s == HostAfter(at, host, n + 1) {
      assert n > 0 && q[n - 1] == p;
    }
  }

  lemma {:induction false} HostStaysDead(at: bool, host: string, n: nat, m: nat)
    requires n <= m <= |host| && HostAfter(at, host, n).HostDead?
    ensures HostAfter(at, host, m).HostDead?
  {
    hide ParseHostChar;
    if n < m {
      HostStaysDead(at, host, n, m - 1);
      DeadHost(host[m - 1]);
    }
  }

  lemma NoneYet(u: HttpParserUrl, base: nat)
    requires u.Valid()
    ensures u.HoldsAll([], base, u.fieldSet)
  {
  }

  /** http_parse_host: cuts the region that UF_HOST holds into user information, host and port. */
  method ParseHost(memory: string, u: HttpParserUrl, foundAt: bool) returns (ok: bool)
    requires u.Valid() && u.off[UF_HOST] + u.len[UF_HOST] <= |memory|
    modifies u`fieldSet, u.off, u.len
    ensures var base := old(u.off[UF_HOST]);
            var n := old(u.len[UF_HOST]);
            var host := memory[base..base + n];
            && (ok <==> HostDone(HostAfter(foundAt, host, n)))
            && (ok ==> u.HoldsAll(HostRegions(foundAt, host, n), base, old(u.fieldSet)))
    ensures forall p | 0 <= p < UF_MAX && !Inner(p) :: u.off[p] == old(u.off[p]) && u.len[p] == old(u.len[p])
  {
    hide ParseHostChar, HostRegion, Count, First;
    var base := u.off[UF_HOST];
    var n := u.len[UF_HOST];
    ghost var host := memory[base..base + n];
    u.len[UF_HOST] := 0;
    var s := HostInit(foundAt);
    var i := 0;
    NoneYet(u, base);
    while i < n
      invariant 0 <= i <= n && s == HostAfter(foundAt, host, i) && !s.HostDead?
      invariant u.HoldsAll(HostRegions(foundAt, host, i), base, old(u.fieldSet))
      invariant forall p | 0 <= p < UF_MAX && !Inner(p) :: u.off[p] == old(u.off[p]) && u.len[p] == old(u.len[p])
    {
      var t := ParseHostChar(s, memory[base + i]);
      assert memory[base + i] == host[i];
      if t.HostDead? {
        HostStaysDead(foundAt, host, i + 1, n);
        return false;
      }
      var part := HostRegion(t);
      if part != UF_MAX {
        HostStarts(foundAt, host, i);
      }
      u.Grow(part, base + i, s != t, HostRegions(foundAt, host, i), base, old(u.fieldSet));
      s := t;
      i := i + 1;
    }
    ok := !(s.HostStart? || s.HostV6Start? || s.HostV6? || s.HostPortStart? || s.Userinfo? || s.UserinfoStart?);
  }

  lemma RegionStarts(connect: bool, url: string, n: nat, old_uf: nat)
    requires n < |url| && !After(connect, url, n + 1).Dead?
    requires Region(After(connect, url, n + 1)) != UF_MAX
    requires Region(After(connect, url, n)) != UF_MAX ==> old_uf == Region(After(connect, url, n))
    requires old_uf != UF_MAX ==> Count(Regions(connect, url, n), old_uf) > 0
    ensures Region(After(connect, url, n + 1)) != old_uf
       <==> Count(Regions(connect, url, n), Region(After(connect, url, n + 1))) == 0
  {
    hide ParseUrlChar;
    var s, q, p := After(connect, url, n), Regions(connect, url, n), Region(After(connect, url, n + 1));
    assert !s.Dead? by {
      DeadUrl(url[n]);
    }
    RegionRuns(connect, url, n);
    RankStep(s, url[n]);
    CountIs(q, p);
  }

  lemma {:induction false} StaysDead(connect: bool, url: string, n: nat, m: nat)
    requires n <= m <= |url| && After(connect, url, n).Dead?
    ensures After(connect, url, m).Dead?
  {
    hide ParseUrlChar;
    if n < m {
      StaysDead(connect, url, n, m - 1);
      DeadUrl(url[m - 1]);
    }
  }

  lemma NoRegionYet(connect: bool)
    ensures Region(Start(connect)) == UF_MAX
  {
  }

  /** The first loop of http_parser_parse_url: cuts a URL into schema, host region, path, query, fragment. */
  method FindRegions(memory: string, n: nat, isConnect: bool, u: HttpParserUrl) returns (ok: bool, foundAt: bool)
    requires n <= |memory| && u.Valid() && u.Zeroed() && u.fieldSet == {}
    modifies u`fieldSet, u.off, u.len
    ensures var url := memory[..n];
            && (ok <==> !After(isConnect, url, n).Dead?)
            && (ok ==> u.HoldsAll(Regions(isConnect, url, n), 0, {}) && foundAt == FoundAt(isConnect, url, n))
            && (ok && Count(Regions(isConnect, url, n), UF_HOST) == 0 ==> u.off[UF_HOST] == 0 == u.len[UF_HOST])
  {
    hide ParseUrlChar, Region, Count, First, HttpParserUrl.HoldsAll, HttpParserUrl.Holds;
    ghost var url := memory[..n];
    var s := if isConnect then ReqServerStart else ReqSpacesBeforeUrl;
    var old_uf := UF_MAX;
    foundAt := false;
    var i := 0;
    NoneYet(u, 0);
    assert Region(s) == UF_MAX by {
      NoRegionYet(isConnect);
    }
    while i < n
      invariant 0 <= i <= n && s == After(isConnect, url, i) && !s.Dead?
      invariant foundAt == FoundAt(isConnect, url, i)
      invariant Region(s) != UF_MAX ==> old_uf == Region(s)
      invariant old_uf != UF_MAX ==> Count(Regions(isConnect, url, i), old_uf) > 0
      invariant u.HoldsAll(Regions(isConnect, url, i), 0, {})
      invariant Count(Regions(isConnect, url, i), UF_HOST) == 0 ==> u.off[UF_HOST] == 0 == u.len[UF_HOST]
    {
      ghost var q, t := Regions(isConnect, url, i), s;
      s := ParseUrlChar(s, memory[i]);
      assert memory[i] == url[i];
      assert s == After(isConnect, url, i + 1);
      if s.Dead? {
        StaysDead(isConnect, url, i + 1, n);
        return false, false;
      }
      if s.ReqServerWithAt? {
        foundAt := true;
      }
      var uf := Region(s);
      OneMore(q, uf, UF_HOST);
      if uf != UF_MAX {
        RegionStarts(isConnect, url, i, old_uf);
        OneMore(q, uf, uf);
      } else if old_uf != UF_MAX {
        OneMore(q, uf, old_uf);
      }
      u.Grow(uf, i, uf != old_uf, q, 0, {});
      if uf != UF_MAX {
        old_uf := uf;
      }
      i := i + 1;
    }
    ok := true;
  }

  predicate Outer(p: nat) {
    p == UF_SCHEMA || p == UF_PATH || p == UF_QUERY || p == UF_FRAGMENT
  }

  lemma Pasted(a: seq<nat>, b: seq<nat>, c: seq<nat>, p: nat)
    ensures Count(a + b + c, p) == Count(a, p) + Count(b, p) + Count(c, p)
    ensures Count(a, p) > 0 ==> First(a + b + c, p) == First(a, p)
    ensures Count(a, p) == 0 && Count(b, p) > 0 ==> First(a + b + c, p) == |a| + First(b, p)
    ensures Count(a, p) == Count(b, p) == 0 ==> First(a + b + c, p) == |a| + |b| + First(c, p)
  {
    Appended(a, b, p);
    Appended(a + b, c, p);
  }

  /** The regions around the host and the labels that fill it. */
  lemma HostFills(connect: bool, url: string) returns (a: seq<nat>, b: seq<nat>, c: seq<nat>)
    requires !After(connect, url, |url|).Dead?
    ensures Regions(connect, url, |url|) == a + b + c && Labels(connect, url) == a + HostLabels(connect, url) + c
    ensures |a| == HostStartsAt(connect, url) && |b| == HostSize(connect, url)
    ensures (forall x | x in a || x in c :: x == UF_MAX || Outer(x)) && forall x | x in b :: x == UF_HOST
  {
    hide Count, First, After, ParseUrlChar, HostRegions, FoundAt;
    var q, h, k := Regions(connect, url, |url|), HostStartsAt(connect, url), HostSize(connect, url);
    a, b, c := q[..h], q[h..h + k], q[h + k..];
    HostIsOneRun(connect, url);
    assert q == a + b + c;
  }

  lemma OuterPart(connect: bool, url: string, p: nat)
    requires !After(connect, url, |url|).Dead? && Outer(p)
    ensures Count(Labels(connect, url), p) == Count(Regions(connect, url, |url|), p)
    ensures Count(Labels(connect, url), p) > 0 ==>
              First(Labels(connect, url), p) == First(Regions(connect, url, |url|), p)
  {
    hide Count, First, Region, After, Regions, HostRegions, Labels;
    var a, b, c := HostFills(connect, url);
    Pasted(a, b, c, p);
    Pasted(a, HostLabels(connect, url), c, p);
    NoOther(b, p);
    NotOuter(FoundAt(connect, url, |url|), HostText(connect, url), HostSize(connect, url), p);
  }

  lemma InnerPart(connect: bool, url: string, p: nat)
    requires !After(connect, url, |url|).Dead? && Inner(p)
    ensures Count(Labels(connect, url), p) == Count(HostLabels(connect, url), p)
    ensures Count(Labels(connect, url), p) > 0 ==>
              First(Labels(connect, url), p) == HostStartsAt(connect, url) + First(HostLabels(connect, url), p)
  {
    hide Count, First, Region, After, Regions, HostRegions, Labels;
    var a, b, c := HostFills(connect, url);
    Pasted(a, HostLabels(connect, url), c, p);
    NoOther(a, p);
    NoOther(c, p);
  }

  lemma HostIsOneRun(connect: bool, url: string)
    requires !After(connect, url, |url|).Dead?
    ensures var q := Regions(connect, url, |url|);
            var h := HostStartsAt(connect, url);
            forall i | 0 <= i < |url| :: q[i] == UF_HOST <==> h <= i < h + HostSize(connect, url)
  {
    RegionRuns(connect, url, |url|);
    RunIs(Regions(connect, url, |url|), UF_HOST);
  }

  lemma HostEntered(s: HostState, ch: char)
    ensures HostRank(ParseHostChar(s, ch)) >= 4 ==> HostRank(s) >= 4 || HostRegion(ParseHostChar(s, ch)) == UF_HOST
  {
  }

  lemma NoHostAtFirst(at: bool)
    ensures HostRank(HostInit(at)) < 4
  {
  }

  lemma {:induction false} HostFound(at: bool, host: string, n: nat)
    requires n <= |host| && HostRank(HostAfter(at, host, n)) >= 4
    ensures Count(HostRegions(at, host, n), UF_HOST) > 0
  {
    hide ParseHostChar, HostRegion, HostRank;
    NoHostAtFirst(at);
    var q, s := HostRegions(at, host, n - 1), HostAfter(at, host, n - 1);
    HostEntered(s, host[n - 1]);
    OneMore(q, HostRegion(HostAfter(at, host, n)), UF_HOST);
    if HostRank(s) >= 4 {
      HostFound(at, host, n - 1);
    }
  }

  lemma EmptyHost(at: bool)
    ensures !HostDone(HostAfter(at, "", 0))
  {
  }

  lemma NotInner(connect: bool, url: string, n: nat, p: nat)
    requires n <= |url| && (p == UF_PORT || p == UF_USERINFO)
    ensures Count(Regions(connect, url, n), p) == 0
  {
    NoOther(Regions(connect, url, n), p);
  }

  lemma NotOuter(at: bool, host: string, n: nat, p: nat)
    requires n <= |host| && Outer(p)
    ensures Count(HostRegions(at, host, n), p) == 0
  {
    NoOther(HostRegions(at, host, n), p);
  }

  /** Without a host region the parts are the regions. */
  lemma RegionsOnly(u: HttpParserUrl, connect: bool, url: string)
    requires u.Valid() && !After(connect, url, |url|).Dead?
    requires u.HoldsAll(Regions(connect, url, |url|), 0, {}) && HostSize(connect, url) == 0
    ensures u.DescribesLow(Labels(connect, url))
  {
    hide Count, First, Region, After, HostRegions, Regions, Labels;
    var q := Regions(connect, url, |url|);
    var a, b, c := HostFills(connect, url);
    assert q == Labels(connect, url);
    forall p: nat | p < UF_MAX && Count(q, p) > 0
      ensures u.off[p] == First(q, p) % 65536 && u.len[p] == Count(q, p) % 65536
    {
      Absent(q, p);
      assert u.Holds(q, 0, p);
    }
  }

  /** With one, the host's parts are put in. */
  lemma RegionsAndHost(u: HttpParserUrl, connect: bool, url: string, before: set<nat>)
    requires u.Valid() && !After(connect, url, |url|).Dead?
    requires forall p | Outer(p) :: u.Holds(Regions(connect, url, |url|), 0, p)
    requires forall p: nat :: p in before <==> p < UF_MAX && Count(Regions(connect, url, |url|), p) > 0
    requires u.HoldsAll(HostLabels(connect, url), HostStartsAt(connect, url), before)
    requires HostAccepted(connect, url)
    ensures u.DescribesLow(Labels(connect, url))
  {
    hide Count, First, Region, After, HostRegions, Regions, Labels, HostStartsAt, HostSize;
    var q, hl, l := Regions(connect, url, |url|), HostLabels(connect, url), Labels(connect, url);
    HostHasHost(connect, url);
    forall p: nat | p < UF_MAX
      ensures p in u.fieldSet <==> Count(l, p) > 0
      ensures p in u.fieldSet ==> u.off[p] == First(l, p) % 65536 && u.len[p] == Count(l, p) % 65536
    {
      Absent(l, p);
      if Outer(p) {
        OuterPart(connect, url, p);
        HostHasNoOuter(connect, url, p);
        assert u.Holds(q, 0, p);
      } else {
        InnerPart(connect, url, p);
        if p != UF_HOST {
          NotInner(connect, url, |url|, p);
        }
        assert u.Holds(hl, HostStartsAt(connect, url), p);
      }
    }
  }

  lemma HostHasNoOuter(connect: bool, url: string, p: nat)
    requires Outer(p)
    ensures Count(HostLabels(connect, url), p) == 0
  {
    NotOuter(FoundAt(connect, url, |url|), HostText(connect, url), HostSize(connect, url), p);
  }

  lemma HostHasHost(connect: bool, url: string)
    requires HostAccepted(connect, url)
    ensures Count(HostLabels(connect, url), UF_HOST) > 0
  {
    HostFound(FoundAt(connect, url, |url|), HostText(connect, url), HostSize(connect, url));
  }

  /** The region of the host lies within the URL, however long it is. */
  lemma Spans(connect: bool, memory: string, n: nat, u: HttpParserUrl)
    requires n <= |memory| && u.Valid()
    requires u.HoldsAll(Regions(connect, memory[..n], n), 0, {})
    requires HostSize(connect, memory[..n]) == 0 ==> u.off[UF_HOST] == 0 == u.len[UF_HOST]
    ensures u.off[UF_HOST] + u.len[UF_HOST] <= n
    ensures HostFits(connect, memory[..n]) ==> u.len[UF_HOST] == HostSize(connect, memory[..n])
    ensures HostFits(connect, memory[..n]) && u.len[UF_HOST] > 0 ==> u.off[UF_HOST] == HostStartsAt(connect, memory[..n])
  {
    hide Count, First, Region, After;
    var q := Regions(connect, memory[..n], n);
    Absent(q, UF_HOST);
    assert u.Holds(q, 0, UF_HOST);
  }

  /** And so does the port. */
  lemma PortSpan(u: HttpParserUrl, memory: string, at: bool, base: nat, size: nat, before: set<nat>)
    requires u.Valid() && base + size <= |memory| && UF_PORT !in before
    requires u.HoldsAll(HostRegions(at, memory[base..base + size], size), base, before)
    ensures UF_PORT in u.fieldSet ==> u.off[UF_PORT] <= |memory|
  {
    hide Count, First;
    var q := HostRegions(at, memory[base..base + size], size);
    Absent(q, UF_PORT);
    assert u.Holds(q, base, UF_PORT);
  }

  /** The host region is cut, once the URL is known to have a schema or a host. */
  method ParseServer(memory: string, n: nat, isConnect: bool, u: HttpParserUrl, foundAt: bool) returns (ok: bool)
    requires n <= |memory| && u.Valid() && !After(isConnect, memory[..n], n).Dead?
    requires u.HoldsAll(Regions(isConnect, memory[..n], n), 0, {}) && foundAt == FoundAt(isConnect, memory[..n], n)
    requires HostSize(isConnect, memory[..n]) == 0 ==> u.off[UF_HOST] == 0 == u.len[UF_HOST]
    modifies u`fieldSet, u.off, u.len
    ensures HostFits(isConnect, memory[..n]) ==> (ok <==> HostAccepted(isConnect, memory[..n]))
    ensures HostFits(isConnect, memory[..n]) && ok ==> u.DescribesLow(Labels(isConnect, memory[..n]))
    ensures ok && UF_PORT in u.fieldSet ==> u.off[UF_PORT] <= |memory|
  {
    hide Count, First, Region, After, HostRegions, Regions, HostAfter, FoundAt, HostStartsAt, HostSize, Labels, HostFits;
    ghost var url := memory[..n];
    ghost var before, base, size := u.fieldSet, u.off[UF_HOST], u.len[UF_HOST];
    NotInner(isConnect, url, n, UF_PORT);
    Spans(isConnect, memory, n, u);
    EmptyHost(foundAt);
    ok := ParseHost(memory, u, foundAt);
    ghost var host := memory[base..base + size];
    if HostFits(isConnect, url) {
      assert host == HostText(isConnect, url);
    }
    if ok {
      PortSpan(u, memory, foundAt, base, size, before);
      if HostFits(isConnect, url) {
        forall p | Outer(p) ensures u.Holds(Regions(isConnect, url, n), 0, p) {
          assert old(u.Holds(Regions(isConnect, url, n), 0, p));
        }
        RegionsAndHost(u, isConnect, url, before);
      }
    }
  }

  /** Every URL of up to 65535 bytes has its host where 16 bits reach. */
  lemma ShortFits(connect: bool, url: string)
    requires |url| <= 65535
    ensures HostFits(connect, url)
  {
    hide Count, First, Regions;
  }

  /** The port lies in the region of the host. */
  lemma PortIsLow(connect: bool, url: string)
    requires !After(connect, url, |url|).Dead? && HostFits(connect, url)
    ensures var q := Labels(connect, url); Count(q, UF_PORT) > 0 ==> First(q, UF_PORT) <= 65535
  {
    hide Count, First, Region, After, HostRegions, Regions, Labels, FoundAt;
    InnerPart(connect, url, UF_PORT);
    Absent(HostLabels(connect, url), UF_PORT);
  }

  /** In a URL of up to 65535 bytes every part is low enough. */
  lemma ShortIsExact(u: HttpParserUrl, q: seq<nat>)
    requires u.Valid() && u.DescribesLow(q) && |q| <= 65535
    ensures u.Describes(q)
  {
    hide Count, First;
    forall p: nat ensures First(q, p) <= 65535 && Count(q, p) <= 65535 {
      Absent(q, p);
    }
    u.DescribesIff(q);
  }

  /** Both loops. */
  method ParseParts(memory: string, n: nat, isConnect: bool, u: HttpParserUrl) returns (ok: bool)
    requires n <= |memory| && u.Valid() && u.Zeroed() && u.fieldSet == {}
    modifies u`fieldSet, u.off, u.len
    ensures HostFits(isConnect, memory[..n]) ==> (ok <==> Parsed(isConnect, memory[..n]))
    ensures HostFits(isConnect, memory[..n]) && ok ==> u.DescribesLow(Labels(isConnect, memory[..n]))
    ensures ok && UF_PORT in u.fieldSet ==> u.off[UF_PORT] <= |memory|
  {
    hide Count, First, Region, After, HostRegions, Regions, HostAfter, FoundAt, Labels, HostAccepted, HostFits;
    ghost var url := memory[..n];
    var foundAt;
    ok, foundAt := FindRegions(memory, n, isConnect, u);
    if !ok {
      return false;
    }
    NotInner(isConnect, url, n, UF_PORT);
    if UF_SCHEMA in u.fieldSet || UF_HOST in u.fieldSet {
      ok := ParseServer(memory, n, isConnect, u, foundAt);
    } else {
      RegionsOnly(u, isConnect, url);
    }
  }

  lemma FieldsOfConnect(u: HttpParserUrl, q: seq<nat>)
    requires u.Valid() && u.DescribesLow(q)
    ensures u.fieldSet == {UF_HOST, UF_PORT} <==> HostAndPort(q)
  {
    if u.fieldSet == {UF_HOST, UF_PORT} {
      forall p | 0 <= p < UF_MAX ensures Count(q, p) > 0 <==> p == UF_HOST || p == UF_PORT {
        assert p in u.fieldSet <==> Count(q, p) > 0;
      }
    }
    if HostAndPort(q) {
      forall p: nat ensures p in u.fieldSet <==> p in {UF_HOST, UF_PORT} {
        assert p in u.fieldSet <==> p < UF_MAX && Count(q, p) > 0;
      }
    }
  }

  /** The port number, where strtoul finds digits. */
  method ReadPort(memory: string, u: HttpParserUrl) returns (ok: bool)
    requires u.Valid() && u.port == 0 && (UF_PORT in u.fieldSet ==> u.off[UF_PORT] <= |memory|)
    modifies u`port
    ensures var v := if UF_PORT in u.fieldSet then DecValue(DigitsFrom(memory, u.off[UF_PORT])) else 0;
      (ok <==> v <= 65535) && (ok ==> u.port == v)
  {
    if UF_PORT in u.fieldSet {
      var v := DecValue(DigitsFrom(memory, u.off[UF_PORT]));
      if v > 0xffff {
        return false;
      }
      u.port := v;
    }
    return true;
  }

  /** http_parser_parse_url.  The URL is the first `n` bytes of the memory; offsets and lengths have 16 bits.
      While the host is where they reach, acceptance and port are exact and the parts are right in 16
      bits; so the parts are right if and only if each starts and extends at most 65535 bytes. */
  method ParseUrl(memory: string, n: nat, isConnect: bool, u: HttpParserUrl) returns (ok: bool)
    requires n <= |memory| && u.Valid() && u.Zeroed()
    modifies u, u.off, u.len
    ensures HostFits(isConnect, memory[..n]) ==> (ok <==> Accepted(isConnect, memory, n))
    ensures HostFits(isConnect, memory[..n]) && ok ==> u.port == PortOf(isConnect, memory, n)
    ensures HostFits(isConnect, memory[..n]) && ok ==>
              (var q := Labels(isConnect, memory[..n]);
               && u.DescribesLow(q)
               && (u.Describes(q) <==> AllLow(q)))
    ensures n <= 65535 ==> (ok <==> Accepted(isConnect, memory, n))
    ensures n <= 65535 && ok ==> u.Describes(Labels(isConnect, memory[..n])) && u.port == PortOf(isConnect, memory, n)
  {
    hide Count, First, After, DecValue, Labels, HostFits, HostSize, Parsed, HostAndPort, AllLow, DigitsFrom;
    ghost var url := memory[..n];
    if n <= 65535 {
      ShortFits(isConnect, url);
    }
    u.port, u.fieldSet := 0, {};
    ok := ParseParts(memory, n, isConnect, u);
    if !ok {
      return false;
    }
    if HostFits(isConnect, url) {
      FieldsOfConnect(u, Labels(isConnect, url));
    }
    if isConnect && u.fieldSet != {UF_HOST, UF_PORT} {
      return false;
    }
    if HostFits(isConnect, url) {
      ParsedIsAlive(isConnect, url);
      PortIsLow(isConnect, url);
    }
    ok := ReadPort(memory, u);
    if !ok {
      return false;
    }
    if HostFits(isConnect, url) {
      u.DescribesIff(Labels(isConnect, url));
      if n <= 65535 {
        ShortIsExact(u, Labels(isConnect, url));
      }
    }
    return true;
  }

  lemma ParsedIsAlive(connect: bool, url: string)
    requires Parsed(connect, url)
    ensures !After(connect, url, |url|).Dead?
  {
  }
}
