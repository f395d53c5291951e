/** What the splitter promises of an accepted URL of at most 65535 bytes. */
module UrlProperties {
  import opened Bytes
  import opened HttpTypes
  import opened Dispatch
  import opened UrlParts
  import opened Url

  /** The order of the parts in a URL: schema, user information, host, port, path, query, fragment. */
  function Order(p: nat): nat {
    if p == UF_SCHEMA then 0
    else if p == UF_USERINFO then 1
    else if p == UF_HOST then 2
    else if p == UF_PORT then 3
    else if p == UF_PATH then 4
    else if p == UF_QUERY then 5
    else 6
  }

  predicate IsDelimiter(c: char) {
    c == ':' || c == '/' || c == '@' || c == '[' || c == ']' || c == '?' || c == '#'
  }

  /** The bytes a part may hold. */
  predicate Fits(p: nat, c: char) {
    if p == UF_SCHEMA then IsAlpha(c)
    else if p == UF_USERINFO then IsUserinfoChar(c)
    else if p == UF_HOST then IsHostChar(c) || IsHex(c) || c == ':'
    else if p == UF_PORT then IsNum(c)
    else if p == UF_PATH then IsUrlChar(c)
    else if p == UF_QUERY then IsUrlChar(c) || c == '?'
    else if p == UF_FRAGMENT then IsUrlChar(c) || c == '?' || c == '#'
    else IsDelimiter(c)
  }

  lemma StepFits(s: State, ch: char)
    requires !ParseUrlChar(s, ch).Dead? && !IsServer(ParseUrlChar(s, ch))
    ensures Fits(Region(ParseUrlChar(s, ch)), ch)
  {
  }

  lemma HostStepFits(s: HostState, ch: char)
    requires !ParseHostChar(s, ch).HostDead?
    ensures Fits(HostRegion(ParseHostChar(s, ch)), ch)
  {
  }

  /** Where a label comes from. */
  lemma LabelAt(connect: bool, url: string, i: nat)
    requires !After(connect, url, |url|).Dead? && i < |url|
    ensures var h := HostStartsAt(connect, url);
            var l := Labels(connect, url)[i];
            if h <= i < h + HostSize(connect, url) then
              && l == HostRegion(HostAfter(FoundAt(connect, url, |url|), HostText(connect, url), i - h + 1))
              && IsServer(After(connect, url, i + 1))
            else l == Region(After(connect, url, i + 1)) != UF_HOST
  {
    hide Count, First, After, FoundAt;
    HostIsOneRun(connect, url);
    NotServer(After(connect, url, i + 1));
    assert Regions(connect, url, |url|)[i] == Region(After(connect, url, i + 1));
  }

  lemma {:induction false} Alive(connect: bool, url: string, i: nat)
    requires i <= |url| && !After(connect, url, |url|).Dead?
    ensures !After(connect, url, i).Dead?
  {
    if After(connect, url, i).Dead? {
      StaysDead(connect, url, i, |url|);
    }
  }

  lemma {:induction false} HostAlive(at: bool, host: string, i: nat)
    requires i <= |host| && HostDone(HostAfter(at, host, |host|))
    ensures !HostAfter(at, host, i).HostDead?
  {
    if HostAfter(at, host, i).HostDead? {
      HostStaysDead(at, host, i, |host|);
    }
  }

  /** Every byte is one its part may hold, and bytes outside the parts are delimiters. */
  lemma BytesFit(connect: bool, url: string, i: nat)
    requires Parsed(connect, url) && i < |url|
    ensures Fits(Labels(connect, url)[i], url[i])
  {
    hide Fits, ParseUrlChar, ParseHostChar, Region, HostRegion, Labels, Count, First, FoundAt;
    var h, at, host := HostStartsAt(connect, url), FoundAt(connect, url, |url|), HostText(connect, url);
    LabelAt(connect, url, i);
    Alive(connect, url, i + 1);
    if h <= i < h + HostSize(connect, url) {
      HostAlive(at, host, i - h + 1);
      HostStepFits(HostAfter(at, host, i - h), url[i]);
    } else {
      NotServer(After(connect, url, i + 1));
      StepFits(After(connect, url, i), url[i]);
    }
  }

  lemma NotServer(s: State)
    ensures IsServer(s) <==> Region(s) == UF_HOST
  {
  }

  lemma {:induction false} RanksRise(connect: bool, url: string, i: nat, j: nat)
    requires i <= j <= |url| && !After(connect, url, |url|).Dead?
    ensures UrlRank(After(connect, url, i)) <= UrlRank(After(connect, url, j))
  {
    hide ParseUrlChar, UrlRank;
    if i < j {
      Alive(connect, url, j);
      RanksRise(connect, url, i, j - 1);
      RankStep(After(connect, url, j - 1), url[j - 1]);
    }
  }

  lemma {:induction false} HostRanksRise(at: bool, host: string, i: nat, j: nat)
    requires i <= j <= |host| && HostDone(HostAfter(at, host, |host|))
    ensures HostRank(HostAfter(at, host, i)) <= HostRank(HostAfter(at, host, j))
  {
    hide ParseHostChar, HostRank;
    if i < j {
      HostAlive(at, host, j);
      HostRanksRise(at, host, i, j - 1);
      HostRankStep(HostAfter(at, host, j - 1), host[j - 1]);
    }
  }

  lemma RegionOrder(s: State, t: State)
    requires UrlRank(s) <= UrlRank(t)
    ensures Region(s) != UF_MAX && Region(t) != UF_MAX ==> Order(Region(s)) <= Order(Region(t))
    ensures Region(s) == UF_HOST && Region(t) != UF_HOST && Region(t) != UF_MAX ==> Order(Region(t)) > 3
    ensures Region(t) == UF_HOST && Region(s) != UF_HOST && Region(s) != UF_MAX ==> Order(Region(s)) < 1
  {
  }

  lemma HostRegionOrder(s: HostState, t: HostState)
    requires HostRank(s) <= HostRank(t) && HostRegion(s) != UF_MAX && HostRegion(t) != UF_MAX
    ensures Order(HostRegion(s)) <= Order(HostRegion(t))
  {
  }

  /** The parts come in the order of RFC 3986. */
  lemma PartsInOrder(connect: bool, url: string, i: nat, j: nat)
    requires Parsed(connect, url) && i <= j < |url|
    requires Labels(connect, url)[i] != UF_MAX && Labels(connect, url)[j] != UF_MAX
    ensures Order(Labels(connect, url)[i]) <= Order(Labels(connect, url)[j])
  {
    hide ParseUrlChar, ParseHostChar, UrlRank, HostRank, Region, HostRegion, Labels, Count, First, HostSize, HostStartsAt, FoundAt,
         After, HostAfter;
    var h, at, host := HostStartsAt(connect, url), FoundAt(connect, url, |url|), HostText(connect, url);
    LabelAt(connect, url, i);
    LabelAt(connect, url, j);
    RanksRise(connect, url, i + 1, j + 1);
    RegionOrder(After(connect, url, i + 1), After(connect, url, j + 1));
    NotServer(After(connect, url, i + 1));
    NotServer(After(connect, url, j + 1));
    if h <= i <= j < h + HostSize(connect, url) {
      HostRanksRise(at, host, i - h + 1, j - h + 1);
      HostRegionOrder(HostAfter(at, host, i - h + 1), HostAfter(at, host, j - h + 1));
    }
  }

  lemma OuterIsRun(connect: bool, url: string, p: nat, i: nat)
    requires !After(connect, url, |url|).Dead? && Outer(p) && i < |url|
    ensures var q := Labels(connect, url); q[i] == p <==> First(q, p) <= i < First(q, p) + Count(q, p)
  {
    hide ParseUrlChar, Count, First, Labels, FoundAt, HostStartsAt, HostSize, HostText;
    RegionRuns(connect, url, |url|);
    RunIs(Regions(connect, url, |url|), p);
    OuterPart(connect, url, p);
    Absent(Labels(connect, url), p);
    LabelAt(connect, url, i);
    NotServer(After(connect, url, i + 1));
    assert Regions(connect, url, |url|)[i] == Region(After(connect, url, i + 1));
  }

  lemma HostPartIsRun(connect: bool, url: string, p: nat)
    requires HostAccepted(connect, url) && p != UF_MAX
    ensures var q := HostLabels(connect, url);
            forall j | 0 <= j < |q| :: q[j] == p <==> First(q, p) <= j < First(q, p) + Count(q, p)
  {
    hide ParseHostChar, Count, First, FoundAt, HostStartsAt, HostSize, HostRegions;
    var host := HostText(connect, url);
    assert |host| == HostSize(connect, url);
    HostRuns(FoundAt(connect, url, |url|), host, |host|);
    RunIs(HostLabels(connect, url), p);
  }

  lemma LabelIs(connect: bool, url: string, i: nat)
    requires !After(connect, url, |url|).Dead? && i < |url|
    ensures var h := HostStartsAt(connect, url);
            var l := Labels(connect, url)[i];
            if h <= i < h + HostSize(connect, url) then l == HostLabels(connect, url)[i - h] else !Inner(l)
  {
    hide Count, First, After, FoundAt, HostRegions, Labels, Regions, HostStartsAt, HostSize;
    var a, b, c := HostFills(connect, url);
    if i < |a| {
      assert Labels(connect, url)[i] == a[i] && a[i] in a;
    } else if i >= |a| + |b| {
      assert Labels(connect, url)[i] == c[i - |a| - |b|] && c[i - |a| - |b|] in c;
    }
  }

  lemma InnerIsRun(connect: bool, url: string, p: nat, i: nat)
    requires !After(connect, url, |url|).Dead? && HostAccepted(connect, url) && Inner(p) && i < |url|
    ensures var q := Labels(connect, url); q[i] == p <==> First(q, p) <= i < First(q, p) + Count(q, p)
  {
    hide Count, First, After, FoundAt, HostRegions, Regions, HostLabels, Labels, HostStartsAt, HostSize, HostText, HostAfter;
    HostPartIsRun(connect, url, p);
    InnerPart(connect, url, p);
    Absent(Labels(connect, url), p);
    Absent(HostLabels(connect, url), p);
    LabelIs(connect, url, i);
  }

  lemma NoInner(connect: bool, url: string, p: nat, i: nat)
    requires !After(connect, url, |url|).Dead? && HostSize(connect, url) == 0 && Inner(p) && i < |url|
    ensures var q := Labels(connect, url); q[i] == p <==> First(q, p) <= i < First(q, p) + Count(q, p)
  {
    hide ParseUrlChar, First, Labels, FoundAt, HostStartsAt, HostText;
    InnerPart(connect, url, p);
    LabelAt(connect, url, i);
  }

  /** Every part is one run of bytes, the one its offset and length name. */
  lemma PartIsRun(connect: bool, url: string, p: nat, i: nat)
    requires Parsed(connect, url) && p < UF_MAX && i < |url|
    ensures var q := Labels(connect, url); q[i] == p <==> First(q, p) <= i < First(q, p) + Count(q, p)
  {
    hide ParseUrlChar, ParseHostChar, Count, First, Labels, FoundAt;
    if Outer(p) {
      OuterIsRun(connect, url, p, i);
    } else if HostSize(connect, url) > 0 {
      InnerIsRun(connect, url, p, i);
    } else {
      NoInner(connect, url, p, i);
    }
  }

  // ---- the result structure

  /** The bytes of a part. */
  function Part(memory: string, u: HttpParserUrl, p: nat): string
    requires u.Valid() && p < UF_MAX && u.off[p] + u.len[p] <= |memory|
    reads u.off, u.len
  {
    memory[u.off[p]..u.off[p] + u.len[p]]
  }

  /** The decomposition of an accepted URL: parts are in bounds, not empty, disjoint and ordered. */
  lemma Decomposition(u: HttpParserUrl, connect: bool, memory: string, n: nat)
    requires n <= |memory| && Accepted(connect, memory, n)
    requires u.Valid() && u.Describes(Labels(connect, memory[..n]))
    ensures forall p | p in u.fieldSet :: p < UF_MAX && u.len[p] > 0 && u.off[p] + u.len[p] <= n
    ensures forall p, r | p in u.fieldSet && r in u.fieldSet && Order(p) < Order(r) :: u.off[p] + u.len[p] <= u.off[r]
    ensures UF_SCHEMA in u.fieldSet ==> UF_HOST in u.fieldSet
  {
    hide ParseUrlChar, ParseHostChar, Count, First, Labels, PortOf, FoundAt, Order;
    var q := Labels(connect, memory[..n]);
    forall p: nat ensures First(q, p) + Count(q, p) <= |q| {
      Absent(q, p);
    }
    forall p, r | p in u.fieldSet && r in u.fieldSet && Order(p) < Order(r)
      ensures u.off[p] + u.len[p] <= u.off[r]
    {
      var i, j := First(q, p) + Count(q, p) - 1, First(q, r);
      PartIsRun(connect, memory[..n], p, i);
      PartIsRun(connect, memory[..n], r, j);
      if j <= i {
        PartsInOrder(connect, memory[..n], j, i);
      }
    }
    if UF_SCHEMA in u.fieldSet {
      SchemaHasHost(connect, memory[..n]);
    }
  }

  lemma SchemaHasHost(connect: bool, url: string)
    requires Parsed(connect, url) && Count(Labels(connect, url), UF_SCHEMA) > 0
    ensures Count(Labels(connect, url), UF_HOST) > 0
  {
    hide ParseUrlChar, ParseHostChar, Count, First, Labels, FoundAt, HostStartsAt, HostSize;
    OuterPart(connect, url, UF_SCHEMA);
    HostHasHost(connect, url);
    InnerPart(connect, url, UF_HOST);
  }

  /** And the bytes of each part are of its kind, while bytes outside all parts are delimiters. */
  lemma DecompositionBytes(u: HttpParserUrl, connect: bool, memory: string, n: nat, i: nat)
    requires n <= |memory| && Accepted(connect, memory, n) && i < n
    requires u.Valid() && u.Describes(Labels(connect, memory[..n]))
    ensures forall p | p in u.fieldSet && u.off[p] <= i < u.off[p] + u.len[p] :: Fits(p, memory[i])
    ensures (forall p | p in u.fieldSet :: !(u.off[p] <= i < u.off[p] + u.len[p])) ==> IsDelimiter(memory[i])
  {
    hide ParseUrlChar, ParseHostChar, Count, First, Labels, PortOf, FoundAt, Fits;
    var q := Labels(connect, memory[..n]);
    BytesFit(connect, memory[..n], i);
    forall p | p in u.fieldSet
      ensures q[i] == p <==> u.off[p] <= i < u.off[p] + u.len[p]
    {
      PartIsRun(connect, memory[..n], p, i);
    }
    LabelBound(connect, memory[..n], i);
    CountIs(q, q[i]);
    NoPart(memory[i]);
  }

  lemma LabelBound(connect: bool, url: string, i: nat)
    requires i < |url| && !After(connect, url, |url|).Dead?
    ensures Labels(connect, url)[i] <= UF_MAX
  {
    LabelAt(connect, url, i);
  }

  lemma NoPart(c: char)
    ensures Fits(UF_MAX, c) <==> IsDelimiter(c)
  {
  }

  // ---- the port

  lemma {:induction false} MoreDigits(a: string, b: string)
    requires AllNum(a) && AllNum(b)
    ensures AllNum(a + b) && DecValue(a + b) >= DecValue(a)
    ensures b != "" ==> DecValue(a + b) >= 10 * DecValue(a)
  {
    if b == "" {
      assert a + b == a;
    } else {
      var c := b[..|b| - 1];
      MoreDigits(a, c);
      assert (a + b)[..|a + b| - 1] == a + c;
    }
  }

  lemma ServerThenRegion(s: State, ch: char)
    requires IsServer(s) && !ParseUrlChar(s, ch).Dead? && !IsServer(ParseUrlChar(s, ch))
    ensures !IsNum(ch)
  {
  }

  lemma PortThenHost(s: HostState, ch: char)
    requires HostRegion(s) == UF_PORT && !ParseHostChar(s, ch).HostDead?
    ensures HostRegion(ParseHostChar(s, ch)) == UF_PORT
  {
  }

  /** Within the URL no digit follows the port. */
  lemma PortEnds(connect: bool, url: string, i: nat)
    requires Parsed(connect, url) && i + 1 < |url|
    requires Labels(connect, url)[i] == UF_PORT && Labels(connect, url)[i + 1] != UF_PORT
    ensures !IsNum(url[i + 1])
  {
    hide ParseUrlChar, ParseHostChar, Labels, FoundAt, Count, First, HostRegion;
    var h, at, host := HostStartsAt(connect, url), FoundAt(connect, url, |url|), HostText(connect, url);
    LabelAt(connect, url, i);
    LabelAt(connect, url, i + 1);
    Alive(connect, url, i + 2);
    if i + 1 < h + HostSize(connect, url) {
      HostAlive(at, host, i - h + 2);
      PortThenHost(HostAfter(at, host, i - h + 1), url[i + 1]);
    } else {
      NotServer(After(connect, url, i + 2));
      ServerThenRegion(After(connect, url, i + 1), url[i + 1]);
    }
  }

  lemma PortFits()
    ensures forall c :: Fits(UF_PORT, c) ==> IsNum(c)
  {
  }

  lemma DigitRun(memory: string, a: nat, k: nat)
    requires a + k <= |memory| && 0 < k
    requires forall i | a <= i < a + k :: IsNum(memory[i])
    ensures AllNum(memory[a..a + k])
    ensures var v := DecValue(DigitsFrom(memory, a));
            v == DecValue(memory[a..a + k]) <==> !(a + k < |memory| && IsNum(memory[a + k])) || v == 0
  {
    hide DecValue;
    var field, d := memory[a..a + k], DigitsFrom(memory, a);
    assert |d| >= k;
    var more := d[k..];
    assert d == field + more;
    MoreDigits(field, more);
    if more == "" {
      assert d == field;
    } else {
      assert d[k] == memory[a + k];
    }
    if a + k < |memory| && IsNum(memory[a + k]) {
      assert |d| > k;
    }
  }

  /** The port number is the value of its field unless the URL ends with the port and the byte behind
      the URL is one more digit, which strtoul then reads; zeros can go on without harm. */
  lemma PortValue(u: HttpParserUrl, connect: bool, memory: string, n: nat)
    requires n <= |memory| && Accepted(connect, memory, n)
    requires u.Valid() && u.Describes(Labels(connect, memory[..n])) && UF_PORT in u.fieldSet
    requires u.port == PortOf(connect, memory, n)
    ensures u.port <= 65535 && u.off[UF_PORT] + u.len[UF_PORT] <= n && AllNum(Part(memory, u, UF_PORT))
    ensures u.port == DecValue(Part(memory, u, UF_PORT)) <==>
              !(u.off[UF_PORT] + u.len[UF_PORT] == n < |memory| && IsNum(memory[n])) || u.port == 0
  {
    hide ParseUrlChar, ParseHostChar, Labels, FoundAt, Count, First, DecValue, Parsed, DigitsFrom, Fits;
    PortFits();
    var q, a, k := Labels(connect, memory[..n]), u.off[UF_PORT], u.len[UF_PORT];
    Absent(q, UF_PORT);
    forall i: nat | i < n
      ensures q[i] == UF_PORT <==> a <= i < a + k
      ensures a <= i < a + k ==> IsNum(memory[i])
    {
      PartIsRun(connect, memory[..n], UF_PORT, i);
      BytesFit(connect, memory[..n], i);
    }
    if a + k < n {
      PortEnds(connect, memory[..n], a + k - 1);
    }
    DigitRun(memory, a, k);
  }

  lemma {:induction false} ZeroDigits(d: string)
    requires AllNum(d)
    ensures DecValue(d) == 0 <==> forall k | 0 <= k < |d| :: d[k] == '0'
  {
    if d != "" {
      var front := d[..|d| - 1];
      ZeroDigits(front);
      if forall k | 0 <= k < |front| :: front[k] == '0' {
        assert forall k | 0 <= k < |d| - 1 :: d[k] == front[k];
      }
      if forall k | 0 <= k < |d| :: d[k] == '0' {
        assert forall k | 0 <= k < |front| :: front[k] == d[k];
      }
    }
  }

  /** What a caller can see before the call: the URL ends with its port, the memory goes on with a digit,
      and the digits are not all zeros. */
  predicate PortRunsOn(connect: bool, memory: string, n: nat)
    requires n <= |memory|
  {
    var q := Labels(connect, memory[..n]);
    Absent(q, UF_PORT);
    && 0 < n < |memory| && IsNum(memory[n]) && q[n - 1] == UF_PORT
    && var d := DigitsFrom(memory, First(q, UF_PORT)); exists k | 0 <= k < |d| :: d[k] != '0'
  }

  /** Exactly then the port number is not the value of its field. */
  lemma PortExact(u: HttpParserUrl, connect: bool, memory: string, n: nat)
    requires n <= |memory| && Accepted(connect, memory, n)
    requires u.Valid() && u.Describes(Labels(connect, memory[..n])) && UF_PORT in u.fieldSet
    requires u.port == PortOf(connect, memory, n)
    ensures u.off[UF_PORT] + u.len[UF_PORT] <= n && AllNum(Part(memory, u, UF_PORT))
    ensures u.port == DecValue(Part(memory, u, UF_PORT)) <==> !PortRunsOn(connect, memory, n)
  {
    hide ParseUrlChar, ParseHostChar, Labels, FoundAt, Count, First, DecValue, Parsed, DigitsFrom, Fits;
    var q, a, k := Labels(connect, memory[..n]), u.off[UF_PORT], u.len[UF_PORT];
    PortValue(u, connect, memory, n);
    Absent(q, UF_PORT);
    ZeroDigits(DigitsFrom(memory, a));
    PartIsRun(connect, memory[..n], UF_PORT, n - 1);
  }

  // ---- longer URLs

  function Slash(n: nat): (s: string)
    requires n > 0
    ensures |s| == n && s[0] == '/' && forall i | 0 < i < n :: s[i] == 'a'
  {
    if n == 1 then "/" else Slash(n - 1) + "a"
  }

  lemma {:induction false} SlashStates(url: string, n: nat)
    requires 0 < n <= |url| && url[0] == '/' && forall i | 0 < i < |url| :: url[i] == 'a'
    ensures After(false, url, n).ReqPath?
  {
    if n > 1 {
      SlashStates(url, n - 1);
    }
  }

  lemma {:induction false} AllOne(q: seq<nat>, x: nat)
    requires forall k | 0 <= k < |q| :: q[k] == x
    ensures Count(q, x) == |q| && First(q, x) == 0
  {
    if q != [] {
      AllOne(q[..|q| - 1], x);
    }
  }

  lemma OnlyPath(n: nat)
    requires n > 0
    ensures HostFits(false, Slash(n)) && Accepted(false, Slash(n), n)
    ensures var q := Labels(false, Slash(n));
      && Count(q, UF_PATH) == n && First(q, UF_PATH) == 0
      && forall p | 0 <= p < UF_MAX && p != UF_PATH :: Count(q, p) == 0
  {
    hide Count, First, Regions, After;
    var url := Slash(n);
    var q := Regions(false, url, n);
    assert url[..n] == url;
    forall k | 0 <= k < n ensures q[k] == UF_PATH {
      SlashStates(url, k + 1);
    }
    SlashStates(url, n);
    AllOne(q, UF_PATH);
    forall p | 0 <= p < UF_MAX && p != UF_PATH ensures Count(q, p) == 0 {
      NoOther(q, p);
    }
    assert HostLabels(false, url) == [];
    assert Labels(false, url) == q;
  }

  /** A path of any length is accepted, but from 65536 bytes on its length has wrapped, so that the parts are
      not those of the URL. */
  lemma LongPath(u: HttpParserUrl, n: nat)
    requires n > 0 && u.Valid() && u.DescribesLow(Labels(false, Slash(n)))
    ensures HostFits(false, Slash(n)) && Accepted(false, Slash(n), n)
    ensures UF_PATH in u.fieldSet && u.off[UF_PATH] == 0 && u.len[UF_PATH] == n % 65536
    ensures u.Describes(Labels(false, Slash(n))) <==> n <= 65535
  {
    hide Count, First, Regions, Labels, Accepted, HostFits;
    var q := Labels(false, Slash(n));
    OnlyPath(n);
    Low(0);
    u.DescribesIff(q);
    assert Count(q, UF_PATH) > 0;
  }
}
