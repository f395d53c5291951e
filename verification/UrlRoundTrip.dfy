/** Splitting inverts printing: the text of a URL gives back the components it was put together from. */
module UrlRoundTrip {
  import opened Bytes
  import opened HttpTypes
  import opened Dispatch
  import opened UrlParts
  import opened Url
  import opened UrlProperties

  // ---- walks of either state machine

  function Go<S>(step: (S, char) -> S, s: S, text: string): S {
    if text == "" then s else step(Go(step, s, text[..|text| - 1]), text[|text| - 1])
  }

  function Marks<S>(step: (S, char) -> S, part: S -> nat, s: S, text: string): (q: seq<nat>)
    ensures |q| == |text|
  {
    if text == "" then [] else Marks(step, part, s, text[..|text| - 1]) + [part(Go(step, s, text))]
  }

  function Rep(n: nat, p: nat): (q: seq<nat>)
    ensures |q| == n && forall i | 0 <= i < n :: q[i] == p
  {
    seq(n, _ => p)
  }

  /** The machine goes from `s` to `t` and labels the text with `q`. */
  predicate Walks<S(==)>(step: (S, char) -> S, part: S -> nat, s: S, text: string, t: S, q: seq<nat>) {
    Go(step, s, text) == t && Marks(step, part, s, text) == q
  }

  lemma {:induction false} WalkOn<S>(step: (S, char) -> S, part: S -> nat, s: S, a: string, t: S, q: seq<nat>,
                                     b: string, u: S, r: seq<nat>)
    requires Walks(step, part, s, a, t, q) && Walks(step, part, t, b, u, r)
    ensures Walks(step, part, s, a + b, u, q + r)
  {
    if b == "" {
      assert a + b == a && q + r == q;
    } else {
      var c := b[..|b| - 1];
      assert (a + b)[..|a + b| - 1] == a + c;
      var m := Marks(step, part, t, c);
      WalkOn(step, part, s, a, t, q, c, Go(step, t, c), m);
      assert q + r == q + m + [part(u)];
    }
  }

  lemma WalkThrice<S>(step: (S, char) -> S, part: S -> nat, s: S, a: string, t: S, q: seq<nat>,
                      b: string, u: S, r: seq<nat>, c: string, v: S, w: seq<nat>)
    requires Walks(step, part, s, a, t, q) && Walks(step, part, t, b, u, r) && Walks(step, part, u, c, v, w)
    ensures Walks(step, part, s, a + b + c, v, q + r + w)
  {
    hide Walks;
    WalkOn(step, part, s, a, t, q, b, u, r);
    WalkOn(step, part, s, a + b, u, q + r, c, v, w);
  }

  /** A text that enters a state with its first byte and stays there. */
  lemma {:induction false} WalkRun<S>(step: (S, char) -> S, part: S -> nat, s: S, text: string, t: S)
    requires text != "" && step(s, text[0]) == t
    requires forall i | 0 < i < |text| :: step(t, text[i]) == t
    ensures Walks(step, part, s, text, t, Rep(|text|, part(t)))
  {
    var c := text[..|text| - 1];
    if c == "" {
      assert Rep(1, part(t)) == [] + [part(t)];
    } else {
      WalkRun(step, part, s, c, t);
      assert Rep(|text|, part(t)) == Rep(|c|, part(t)) + [part(t)];
    }
  }

  lemma {:induction false} WalkIsAfter(connect: bool, url: string, n: nat)
    requires n <= |url|
    ensures Walks(ParseUrlChar, Region, Start(connect), url[..n], After(connect, url, n), Regions(connect, url, n))
  {
    hide ParseUrlChar, Region;
    if n > 0 {
      WalkIsAfter(connect, url, n - 1);
      assert url[..n][..n - 1] == url[..n - 1];
    }
  }

  lemma {:induction false} WalkIsHostAfter(at: bool, host: string, n: nat)
    requires n <= |host|
    ensures Walks(ParseHostChar, HostRegion, HostInit(at), host[..n], HostAfter(at, host, n), HostRegions(at, host, n))
  {
    hide ParseHostChar, HostRegion;
    if n > 0 {
      WalkIsHostAfter(at, host, n - 1);
      assert host[..n][..n - 1] == host[..n - 1];
    }
  }

  // ---- the components

  /** What a URL is put together from; an empty text is an absent component.  The host is a name or,
      in brackets, an IPv6 address.  `connect` says that it is the target of a CONNECT request. */
  datatype Components = Components(
    connect: bool, schema: string, userinfo: string, host: string, v6: bool, port: string, path: string, query: string, fragment: string)

  /** `mark` introduces or closes a component that is there. */
  function With(there: bool, mark: string): string {
    if there then mark else ""
  }

  function ServerText(c: Components): string {
    c.userinfo + With(c.userinfo != "", "@") + With(c.v6, "[") + c.host + With(c.v6, "]")
    + With(c.port != "", ":") + c.port
  }

  function LocalText(c: Components): string {
    c.path + With(c.query != "", "?") + c.query + With(c.fragment != "", "#") + c.fragment
  }

  function SchemaText(c: Components): string {
    c.schema + With(c.schema != "", "://")
  }

  function UrlText(c: Components): string {
    SchemaText(c) + ServerText(c) + LocalText(c)
  }

  predicate AllFit(p: nat, s: string) {
    forall i | 0 <= i < |s| :: Fits(p, s[i])
  }

  /** The three forms of a target: the authority of a CONNECT request, a URL with a schema, and a path
      on the server, which may be an asterisk. */
  predicate Shaped(c: Components) {
    if c.connect then
      && c.schema == "" && c.userinfo == "" && c.host != "" && c.port != ""
      && c.path == "" && c.query == "" && c.fragment == ""
    else if c.schema != "" then c.host != ""
    else c.userinfo == "" && c.host == "" && !c.v6 && c.port == "" && c.path != ""
  }

  predicate Proper(c: Components) {
    && Shaped(c)
    && AllFit(UF_SCHEMA, c.schema)
    && AllFit(UF_USERINFO, c.userinfo)
    && (forall i | 0 <= i < |c.host| ::
      if c.v6 then IsHex(c.host[i]) || c.host[i] == ':' else IsHostChar(c.host[i]))
    && AllFit(UF_PORT, c.port)
    && (c.path != "" ==> c.path[0] == '/' || (c.path[0] == '*' && c.host == "")) && AllFit(UF_PATH, c.path)
    && AllFit(UF_QUERY, c.query)
    && AllFit(UF_FRAGMENT, c.fragment)
    && (c.fragment != "" ==> c.fragment[0] != '#' && (c.path != "" || c.query != ""))
  }

  /** The state behind the schema, and behind the server. */
  function EntryState(c: Components): State {
    if c.schema == "" then Start(c.connect) else ReqServerStart
  }

  function ServerState(c: Components): State {
    if c.host == "" then EntryState(c) else ReqServer
  }

  // ---- the outer machine

  lemma ServerChar(s: State, ch: char)
    requires s.ReqServerStart? || s.ReqServer? || s.ReqServerWithAt?
    requires IsUserinfoChar(ch) || ch == '[' || ch == ']'
    ensures ParseUrlChar(s, ch).ReqServer?
  {
  }

  lemma {:induction false} ServerWalk(s: State, text: string) returns (t: State)
    requires s.ReqServerStart? || s.ReqServer? || s.ReqServerWithAt?
    requires forall i | 0 <= i < |text| :: IsUserinfoChar(text[i]) || text[i] == '[' || text[i] == ']'
    ensures Walks(ParseUrlChar, Region, s, text, t, Rep(|text|, UF_HOST))
    ensures t == if text == "" then s else ReqServer
  {
    hide ParseUrlChar, IsUserinfoChar;
    if text == "" {
      t := s;
      assert Rep(0, UF_HOST) == [];
    } else {
      t := ReqServer;
      ServerChar(s, text[0]);
      forall i | 0 < i < |text| ensures ParseUrlChar(t, text[i]) == t {
        ServerChar(t, text[i]);
      }
      WalkRun(ParseUrlChar, Region, s, text, t);
    }
  }

  /** One byte that leads from one state to another. */
  lemma WalkByte<S>(step: (S, char) -> S, part: S -> nat, s: S, ch: char, t: S)
    requires step(s, ch) == t
    ensures Walks(step, part, s, [ch], t, Rep(1, part(t)))
  {
    WalkRun(step, part, s, [ch], t);
  }

  lemma WalkNothing<S>(step: (S, char) -> S, part: S -> nat, s: S)
    ensures forall p :: Walks(step, part, s, "", s, Rep(0, p))
  {
    forall p ensures Rep(0, p) == [] {
    }
  }

  lemma SchemaWalk(c: Components)
    requires Proper(c)
    ensures Walks(ParseUrlChar, Region, Start(c.connect), SchemaText(c), EntryState(c), SchemaLabels(c))
  {
    hide Walks, Go, Marks;
    if c.schema == "" {
      WalkNothing(ParseUrlChar, Region, Start(c.connect));
      assert SchemaText(c) == "" && SchemaLabels(c) == Rep(0, UF_MAX);
    } else {
      forall i | 0 <= i < |c.schema| ensures IsAlpha(c.schema[i]) {
        assert Fits(UF_SCHEMA, c.schema[i]);
      }
      WalkRun(ParseUrlChar, Region, Start(false), c.schema, ReqSchema);
      Slashes();
      WalkOn(ParseUrlChar, Region, Start(false), c.schema, ReqSchema, Rep(|c.schema|, UF_SCHEMA),
             "://", ReqServerStart, Rep(3, UF_MAX));
    }
  }

  lemma Slashes()
    ensures Walks(ParseUrlChar, Region, ReqSchema, "://", ReqServerStart, Rep(3, UF_MAX))
  {
    hide Walks, Go, Marks;
    WalkByte(ParseUrlChar, Region, ReqSchema, ':', ReqSchemaSlash);
    WalkByte(ParseUrlChar, Region, ReqSchemaSlash, '/', ReqSchemaSlashSlash);
    WalkByte(ParseUrlChar, Region, ReqSchemaSlashSlash, '/', ReqServerStart);
    WalkThrice(ParseUrlChar, Region, ReqSchema, ":", ReqSchemaSlash, Rep(1, UF_MAX),
               "/", ReqSchemaSlashSlash, Rep(1, UF_MAX), "/", ReqServerStart, Rep(1, UF_MAX));
    assert ":" + "/" + "/" == "://";
    assert Rep(1, UF_MAX) + Rep(1, UF_MAX) + Rep(1, UF_MAX) == Rep(3, UF_MAX);
  }

  /** The server's text behind the user information. */
  function AddressText(c: Components): string {
    With(c.v6, "[") + c.host + With(c.v6, "]") + With(c.port != "", ":") + c.port
  }

  lemma AddressChars(c: Components, i: nat)
    requires Proper(c) && i < |AddressText(c)|
    ensures IsUserinfoChar(AddressText(c)[i]) || AddressText(c)[i] == '[' || AddressText(c)[i] == ']'
    ensures AddressText(c)[i] != '@'
  {
    var t := AddressText(c);
    var h, p := |With(c.v6, "[")|, |t| - |c.port|;
    if h <= i < h + |c.host| {
      assert t[i] == c.host[i - h];
    } else if p <= i {
      assert t[i] == c.port[i - p];
      assert Fits(UF_PORT, c.port[i - p]);
    }
  }

  lemma UserinfoChars(c: Components, i: nat)
    requires Proper(c) && i < |c.userinfo|
    ensures IsUserinfoChar(c.userinfo[i]) && c.userinfo[i] != '@'
  {
    assert Fits(UF_USERINFO, c.userinfo[i]);
  }

  lemma WholeServer(c: Components)
    requires Proper(c)
    ensures Walks(ParseUrlChar, Region, EntryState(c), ServerText(c), ServerState(c), Rep(|ServerText(c)|, UF_HOST))
  {
    hide Walks, Go, Marks;
    if c.host == "" {
      WalkNothing(ParseUrlChar, Region, EntryState(c));
      assert ServerText(c) == "";
    } else {
      NamedServer(c);
    }
  }

  lemma NamedServer(c: Components)
    requires Proper(c) && c.host != ""
    ensures Walks(ParseUrlChar, Region, ReqServerStart, ServerText(c), ReqServer, Rep(|ServerText(c)|, UF_HOST))
  {
    hide Walks, Go, Marks, ParseUrlChar, IsUserinfoChar, Region, ServerText, AddressText;
    HasAddress(c);
    var address := AddressText(c);
    forall i | 0 <= i < |address| ensures IsUserinfoChar(address[i]) || address[i] == '[' || address[i] == ']' {
      AddressChars(c, i);
    }
    if c.userinfo == "" {
      WithoutUserinfo(c);
      var t := ServerWalk(ReqServerStart, address);
    } else {
      forall i | 0 <= i < |c.userinfo| ensures IsUserinfoChar(c.userinfo[i]) {
        UserinfoChars(c, i);
      }
      var t := ServerWalk(ReqServerStart, c.userinfo);
      AtSign();
      WalkByte(ParseUrlChar, Region, t, '@', ReqServerWithAt);
      var u := ServerWalk(ReqServerWithAt, address);
      WalkThrice(ParseUrlChar, Region, ReqServerStart, c.userinfo, t, Rep(|c.userinfo|, UF_HOST), "@", ReqServerWithAt,
                 Rep(1, UF_HOST), address, u, Rep(|address|, UF_HOST));
      WithUserinfo(c);
      assert Rep(|c.userinfo|, UF_HOST) + Rep(1, UF_HOST) + Rep(|address|, UF_HOST) == Rep(|ServerText(c)|, UF_HOST);
    }
  }

  lemma HasAddress(c: Components)
    requires Proper(c) && c.host != ""
    ensures AddressText(c) != ""
  {
  }

  lemma WithUserinfo(c: Components)
    requires c.userinfo != ""
    ensures ServerText(c) == c.userinfo + "@" + AddressText(c)
  {
  }

  lemma WithoutUserinfo(c: Components)
    requires c.userinfo == ""
    ensures ServerText(c) == AddressText(c)
  {
  }

  lemma AtSign()
    ensures ParseUrlChar(ReqServer, '@') == ReqServerWithAt && Region(ReqServerWithAt) == UF_HOST
  {
  }

  function LocalLabels(c: Components): seq<nat> {
    Rep(|c.path|, UF_PATH) + Rep(|With(c.query != "", "?")|, UF_MAX) + Rep(|c.query|, UF_QUERY)
    + Rep(|With(c.fragment != "", "#")|, UF_MAX) + Rep(|c.fragment|, UF_FRAGMENT)
  }

  lemma PathWalk(c: Components) returns (t: State)
    requires Proper(c)
    ensures Walks(ParseUrlChar, Region, ServerState(c), c.path, t, Rep(|c.path|, UF_PATH))
    ensures t == if c.path == "" then ReqServer else ReqPath
  {
    hide Walks, Go, Marks;
    t := if c.path == "" then ReqServer else ReqPath;
    if c.path == "" {
      WalkNothing(ParseUrlChar, Region, ReqServer);
    } else {
      forall i | 0 < i < |c.path| ensures ParseUrlChar(ReqPath, c.path[i]) == ReqPath {
        assert Fits(UF_PATH, c.path[i]);
      }
      WalkRun(ParseUrlChar, Region, ServerState(c), c.path, ReqPath);
    }
  }

  lemma QueryWalk(c: Components, s: State) returns (t: State)
    requires Proper(c) && s == if c.path == "" then ReqServer else ReqPath
    ensures Walks(ParseUrlChar, Region, s, With(c.query != "", "?") + c.query, t,
                  Rep(|With(c.query != "", "?")|, UF_MAX) + Rep(|c.query|, UF_QUERY))
    ensures t == if c.query == "" then s else ReqQueryString
  {
    hide Walks, Go, Marks;
    if c.query == "" {
      t := s;
      WalkNothing(ParseUrlChar, Region, s);
      assert With(false, "?") + c.query == "" && Rep(0, UF_MAX) + Rep(0, UF_QUERY) == Rep(0, UF_MAX);
    } else {
      t := ReqQueryString;
      WalkByte(ParseUrlChar, Region, s, '?', ReqQueryStringStart);
      forall i | 0 <= i < |c.query|
        ensures ParseUrlChar(ReqQueryString, c.query[i]) == t == ParseUrlChar(ReqQueryStringStart, c.query[i])
      {
        assert Fits(UF_QUERY, c.query[i]);
      }
      WalkRun(ParseUrlChar, Region, ReqQueryStringStart, c.query, t);
      WalkOn(ParseUrlChar, Region, s, "?", ReqQueryStringStart, Rep(1, UF_MAX), c.query, t, Rep(|c.query|, UF_QUERY));
    }
  }

  lemma FragmentWalk(c: Components, s: State) returns (t: State)
    requires Proper(c)
    requires s.ReqPath? || s.ReqQueryString? || (s.ReqServer? && c.fragment == "")
    ensures Walks(ParseUrlChar, Region, s, With(c.fragment != "", "#") + c.fragment, t,
                  Rep(|With(c.fragment != "", "#")|, UF_MAX) + Rep(|c.fragment|, UF_FRAGMENT))
    ensures t == if c.fragment == "" then s else ReqFragment
  {
    hide Walks, Go, Marks;
    if c.fragment == "" {
      t := s;
      WalkNothing(ParseUrlChar, Region, s);
      assert With(false, "#") + c.fragment == "" && Rep(0, UF_MAX) + Rep(0, UF_FRAGMENT) == Rep(0, UF_MAX);
    } else {
      t := ReqFragment;
      WalkByte(ParseUrlChar, Region, s, '#', ReqFragmentStart);
      forall i | 0 <= i < |c.fragment|
        ensures ParseUrlChar(ReqFragment, c.fragment[i]) == t
        ensures i == 0 ==> ParseUrlChar(ReqFragmentStart, c.fragment[i]) == t
      {
        assert Fits(UF_FRAGMENT, c.fragment[i]);
      }
      WalkRun(ParseUrlChar, Region, ReqFragmentStart, c.fragment, t);
      WalkOn(ParseUrlChar, Region, s, "#", ReqFragmentStart, Rep(1, UF_MAX), c.fragment, t, Rep(|c.fragment|, UF_FRAGMENT));
    }
  }

  lemma LocalWalk(c: Components) returns (t: State)
    requires Proper(c)
    ensures Walks(ParseUrlChar, Region, ServerState(c), LocalText(c), t, LocalLabels(c))
    ensures !t.Dead?
  {
    hide Walks, Go, Marks, ParseUrlChar, Region, Rep, With, ServerState;
    var a := PathWalk(c);
    var b := QueryWalk(c, a);
    t := FragmentWalk(c, b);
    WalkThrice(ParseUrlChar, Region, ServerState(c), c.path, a, Rep(|c.path|, UF_PATH),
               With(c.query != "", "?") + c.query, b, Rep(|With(c.query != "", "?")|, UF_MAX) + Rep(|c.query|, UF_QUERY),
               With(c.fragment != "", "#") + c.fragment, t,
               Rep(|With(c.fragment != "", "#")|, UF_MAX) + Rep(|c.fragment|, UF_FRAGMENT));
    Regroup(c.path, With(c.query != "", "?"), c.query, With(c.fragment != "", "#"), c.fragment);
    Regroup(Rep(|c.path|, UF_PATH), Rep(|With(c.query != "", "?")|, UF_MAX), Rep(|c.query|, UF_QUERY),
            Rep(|With(c.fragment != "", "#")|, UF_MAX), Rep(|c.fragment|, UF_FRAGMENT));
  }

  lemma Regroup<T>(a: seq<T>, b: seq<T>, c: seq<T>, d: seq<T>, e: seq<T>)
    ensures a + b + c + d + e == a + (b + c) + (d + e)
  {
  }

  // ---- the inner machine

  function HostExpected(c: Components): seq<nat> {
    Rep(|c.userinfo|, UF_USERINFO) + Rep(|With(c.userinfo != "", "@")|, UF_MAX)
    + (Rep(|With(c.v6, "[")|, UF_MAX) + Rep(|c.host|, UF_HOST) + Rep(|With(c.v6, "]")|, UF_MAX))
    + (Rep(|With(c.port != "", ":")|, UF_MAX) + Rep(|c.port|, UF_PORT))
  }

  lemma UserinfoWalk(c: Components)
    requires Proper(c)
    ensures Walks(ParseHostChar, HostRegion, HostInit(c.userinfo != ""), c.userinfo + With(c.userinfo != "", "@"), HostStart,
                  Rep(|c.userinfo|, UF_USERINFO) + Rep(|With(c.userinfo != "", "@")|, UF_MAX))
  {
    hide Walks, Go, Marks;
    if c.userinfo == "" {
      WalkNothing(ParseHostChar, HostRegion, HostStart);
      assert c.userinfo + "" == "" && Rep(0, UF_USERINFO) + Rep(0, UF_MAX) == Rep(0, UF_MAX);
    } else {
      forall i | 0 <= i < |c.userinfo|
        ensures ParseHostChar(UserinfoStart, c.userinfo[i]) == Userinfo == ParseHostChar(Userinfo, c.userinfo[i])
      {
        UserinfoChars(c, i);
      }
      WalkRun(ParseHostChar, HostRegion, UserinfoStart, c.userinfo, Userinfo);
      WalkByte(ParseHostChar, HostRegion, Userinfo, '@', HostStart);
      WalkOn(ParseHostChar, HostRegion, UserinfoStart, c.userinfo, Userinfo, Rep(|c.userinfo|, UF_USERINFO),
             "@", HostStart, Rep(1, UF_MAX));
    }
  }

  lemma NameWalk(c: Components)
    requires Proper(c) && c.host != ""
    ensures Walks(ParseHostChar, HostRegion, HostStart, With(c.v6, "[") + c.host + With(c.v6, "]"),
                  if c.v6 then HostV6End else Host,
                  Rep(|With(c.v6, "[")|, UF_MAX) + Rep(|c.host|, UF_HOST) + Rep(|With(c.v6, "]")|, UF_MAX))
  {
    hide Walks, Go, Marks;
    if c.v6 {
      forall i | 0 <= i < |c.host|
        ensures ParseHostChar(HostV6Start, c.host[i]) == HostV6 == ParseHostChar(HostV6, c.host[i])
      {
      }
      WalkByte(ParseHostChar, HostRegion, HostStart, '[', HostV6Start);
      WalkRun(ParseHostChar, HostRegion, HostV6Start, c.host, HostV6);
      WalkByte(ParseHostChar, HostRegion, HostV6, ']', HostV6End);
      WalkThrice(ParseHostChar, HostRegion, HostStart, "[", HostV6Start, Rep(1, UF_MAX),
                 c.host, HostV6, Rep(|c.host|, UF_HOST), "]", HostV6End, Rep(1, UF_MAX));
    } else {
      WalkRun(ParseHostChar, HostRegion, HostStart, c.host, Host);
      assert "" + c.host + "" == c.host;
      assert Rep(0, UF_MAX) + Rep(|c.host|, UF_HOST) + Rep(0, UF_MAX) == Rep(|c.host|, UF_HOST);
    }
  }

  lemma PortWalk(c: Components, s: HostState) returns (t: HostState)
    requires Proper(c) && (s.Host? || s.HostV6End?)
    ensures Walks(ParseHostChar, HostRegion, s, With(c.port != "", ":") + c.port, t,
                  Rep(|With(c.port != "", ":")|, UF_MAX) + Rep(|c.port|, UF_PORT))
    ensures HostDone(t)
  {
    hide Walks, Go, Marks;
    if c.port == "" {
      t := s;
      WalkNothing(ParseHostChar, HostRegion, s);
      assert "" + c.port == "" && Rep(0, UF_MAX) + Rep(0, UF_PORT) == Rep(0, UF_MAX);
    } else {
      t := HostPort;
      forall i | 0 <= i < |c.port|
        ensures ParseHostChar(HostPortStart, c.port[i]) == HostPort == ParseHostChar(HostPort, c.port[i])
      {
        assert Fits(UF_PORT, c.port[i]);
      }
      WalkByte(ParseHostChar, HostRegion, s, ':', HostPortStart);
      WalkRun(ParseHostChar, HostRegion, HostPortStart, c.port, HostPort);
      WalkOn(ParseHostChar, HostRegion, s, ":", HostPortStart, Rep(1, UF_MAX), c.port, HostPort, Rep(|c.port|, UF_PORT));
    }
  }

  lemma HostWalk(c: Components) returns (t: HostState)
    requires Proper(c) && c.host != ""
    ensures Walks(ParseHostChar, HostRegion, HostInit(c.userinfo != ""), ServerText(c), t, HostExpected(c))
    ensures HostDone(t)
  {
    hide Walks, Go, Marks, ParseHostChar, HostRegion, Rep, With, HostInit;
    var s := if c.v6 then HostV6End else Host;
    UserinfoWalk(c);
    NameWalk(c);
    t := PortWalk(c, s);
    WalkThrice(ParseHostChar, HostRegion, HostInit(c.userinfo != ""), c.userinfo + With(c.userinfo != "", "@"), HostStart,
               Rep(|c.userinfo|, UF_USERINFO) + Rep(|With(c.userinfo != "", "@")|, UF_MAX),
               With(c.v6, "[") + c.host + With(c.v6, "]"), s,
               Rep(|With(c.v6, "[")|, UF_MAX) + Rep(|c.host|, UF_HOST) + Rep(|With(c.v6, "]")|, UF_MAX),
               With(c.port != "", ":") + c.port, t, Rep(|With(c.port != "", ":")|, UF_MAX) + Rep(|c.port|, UF_PORT));
    ServerGroups(c.userinfo, With(c.userinfo != "", "@"), With(c.v6, "["), c.host, With(c.v6, "]"), With(c.port != "", ":"), c.port);
  }

  lemma ServerGroups(a: string, b: string, c: string, d: string, e: string, f: string, g: string)
    ensures a + b + c + d + e + f + g == (a + b) + (c + d + e) + (f + g)
  {
  }

  // ---- the labels of the whole text

  lemma {:induction false} RepCount(n: nat, p: nat, r: nat)
    ensures Count(Rep(n, p), r) == if r == p then n else 0
    ensures n > 0 ==> First(Rep(n, p), p) == 0
  {
    if n > 0 {
      RepCount(n - 1, p, r);
      RepCount(n - 1, p, p);
      assert Rep(n, p) == Rep(n - 1, p) + [p];
      OneMore(Rep(n - 1, p), p, r);
      OneMore(Rep(n - 1, p), p, p);
    }
  }

  /** found_at is set when the region of the host holds an '@'. */
  lemma {:induction false} FoundAtIs(connect: bool, url: string, n: nat)
    requires n <= |url|
    ensures FoundAt(connect, url, n) <==> exists i | 0 <= i < n :: url[i] == '@' && IsServer(After(connect, url, i + 1))
  {
    hide ParseUrlChar, IsServer;
    if n > 0 {
      FoundAtIs(connect, url, n - 1);
      AtStep(After(connect, url, n - 1), url[n - 1]);
      if After(connect, url, n).ReqServerWithAt? {
        assert url[n - 1] == '@' && IsServer(After(connect, url, n - 1 + 1));
      }
    }
  }

  lemma AtStep(s: State, ch: char)
    ensures ParseUrlChar(s, ch).ReqServerWithAt? <==> ch == '@' && IsServer(ParseUrlChar(s, ch))
  {
  }

  function SchemaLabels(c: Components): seq<nat> {
    Rep(|c.schema|, UF_SCHEMA) + Rep(|With(c.schema != "", "://")|, UF_MAX)
  }

  lemma TextRegions(c: Components)
    requires Proper(c)
    ensures var url := UrlText(c);
            && Regions(c.connect, url, |url|) == SchemaLabels(c) + Rep(|ServerText(c)|, UF_HOST) + LocalLabels(c)
            && !After(c.connect, url, |url|).Dead?
  {
    hide Go, Marks, SchemaText, SchemaLabels, EntryState, ServerState, ParseUrlChar, Region, Rep, With, ServerText, LocalText, LocalLabels;
    SchemaWalk(c);
    WholeServer(c);
    var t := LocalWalk(c);
    WalkThrice(ParseUrlChar, Region, Start(c.connect), SchemaText(c), EntryState(c), SchemaLabels(c),
               ServerText(c), ServerState(c), Rep(|ServerText(c)|, UF_HOST), LocalText(c), t, LocalLabels(c));
    var url := UrlText(c);
    WalkIsAfter(c.connect, url, |url|);
    assert url[..|url|] == url;
  }

  lemma TextHost(c: Components)
    requires Proper(c)
    ensures HostSize(c.connect, UrlText(c)) == |ServerText(c)|
    ensures c.host != "" ==> HostStartsAt(c.connect, UrlText(c)) == |SchemaText(c)|
    ensures c.host != "" ==> HostText(c.connect, UrlText(c)) == ServerText(c)
  {
    hide Go, Marks, ParseUrlChar, Region, Rep, With, Count, First, ServerText, LocalText, LocalLabels, SchemaText;
    TextRegions(c);
    var k := |ServerText(c)|;
    RepCount(k, UF_HOST, UF_HOST);
    NoHostOutside(c);
    Pasted(SchemaLabels(c), Rep(k, UF_HOST), LocalLabels(c), UF_HOST);
    HasServerText(c);
    SchemaLength(c);
  }

  lemma HasServerText(c: Components)
    requires Proper(c)
    ensures c.host != "" <==> |ServerText(c)| > 0
  {
  }

  lemma NoHostOutside(c: Components)
    ensures Count(SchemaLabels(c), UF_HOST) == 0 == Count(LocalLabels(c), UF_HOST)
    ensures Count(LocalLabels(c), UF_SCHEMA) == 0
  {
    hide With, Count;
    NoOther(LocalLabels(c), UF_SCHEMA);
    NoOther(SchemaLabels(c), UF_HOST);
    NoOther(LocalLabels(c), UF_HOST);
  }

  lemma ServerBytes(connect: bool, url: string, i: nat)
    requires !After(connect, url, |url|).Dead? && i < |url|
    ensures IsServer(After(connect, url, i + 1))
       <==> HostStartsAt(connect, url) <= i < HostStartsAt(connect, url) + HostSize(connect, url)
  {
    hide After, Region, Count, First, IsServer;
    HostIsOneRun(connect, url);
    NotServer(After(connect, url, i + 1));
    assert Regions(connect, url, |url|)[i] == Region(After(connect, url, i + 1));
  }

  /** found_at says whether the host region holds an '@'. */
  lemma FoundAtInHost(connect: bool, url: string)
    requires !After(connect, url, |url|).Dead?
    ensures FoundAt(connect, url, |url|) <==> '@' in HostText(connect, url)
  {
    hide ParseUrlChar, Region, Count, First, HostSize, HostStartsAt, IsServer, FoundAt;
    var h, k, host := HostStartsAt(connect, url), HostSize(connect, url), HostText(connect, url);
    FoundAtIs(connect, url, |url|);
    if FoundAt(connect, url, |url|) {
      var i :| 0 <= i < |url| && url[i] == '@' && IsServer(After(connect, url, i + 1));
      ServerBytes(connect, url, i);
      assert host[i - h] == '@';
    }
    if '@' in host {
      var j :| 0 <= j < |host| && host[j] == '@';
      ServerBytes(connect, url, h + j);
      assert url[h + j] == '@' && IsServer(After(connect, url, h + j + 1));
    }
  }

  lemma AtInServer(c: Components)
    requires Proper(c) && c.host != ""
    ensures '@' in ServerText(c) <==> c.userinfo != ""
  {
    hide With, AddressText, ServerText;
    if c.userinfo == "" {
      WithoutUserinfo(c);
      if '@' in AddressText(c) {
        var i :| 0 <= i < |AddressText(c)| && AddressText(c)[i] == '@';
        AddressChars(c, i);
      }
    } else {
      WithUserinfo(c);
    }
  }

  lemma TextFoundAt(c: Components)
    requires Proper(c) && c.host != ""
    ensures FoundAt(c.connect, UrlText(c), |UrlText(c)|) <==> c.userinfo != ""
  {
    hide ParseUrlChar, With, ServerText, UrlText, FoundAt, HostText, LocalLabels, Rep, Regions;
    TextRegions(c);
    TextHost(c);
    FoundAtInHost(c.connect, UrlText(c));
    AtInServer(c);
  }

  lemma TextHostLabels(c: Components)
    requires Proper(c) && c.host != ""
    ensures HostLabels(c.connect, UrlText(c)) == HostExpected(c) && HostAccepted(c.connect, UrlText(c))
  {
    hide ParseHostChar, ParseUrlChar, HostRegion, Rep, With, HostExpected, ServerText, UrlText, HostSize, HostStartsAt, HostText;
    TextFoundAt(c);
    TextHost(c);
    var host := ServerText(c);
    var t := HostWalk(c);
    WalkIsHostAfter(c.userinfo != "", host, |host|);
    assert host[..|host|] == host;
  }

  lemma TextLabels(c: Components)
    requires Proper(c)
    ensures Labels(c.connect, UrlText(c)) == SchemaLabels(c) + HostExpected(c) + LocalLabels(c)
  {
    hide ParseUrlChar, Rep, With, HostExpected, SchemaLabels, LocalLabels, ServerText, UrlText, HostSize, HostStartsAt, HostText,
         HostLabels, After, Regions, SchemaText;
    TextRegions(c);
    TextHost(c);
    var a, b, d := SchemaLabels(c), Rep(|ServerText(c)|, UF_HOST), LocalLabels(c);
    HasServerText(c);
    if c.host == "" {
      NoHostExpected(c);
      assert a + b + d == a + [] + d;
    } else {
      TextHostLabels(c);
      SchemaLength(c);
      var q := a + b + d;
      assert q[..|a|] == a && q[|a| + |b|..] == d;
    }
  }

  lemma SchemaLength(c: Components)
    ensures |SchemaLabels(c)| == |SchemaText(c)|
  {
  }

  /** A path has no server. */
  lemma NoHostExpected(c: Components)
    requires Proper(c) && c.host == ""
    ensures HostExpected(c) == [] && ServerText(c) == ""
  {
    assert Rep(0, UF_MAX) == [];
  }

  // ---- from labels to fields

  /** A component and the marks around it. */
  datatype Block = Block(p: nat, before: string, text: string, after: string)

  function BlockText(b: Block): string {
    b.before + b.text + b.after
  }

  function BlockLabels(b: Block): (q: seq<nat>)
    ensures |q| == |BlockText(b)|
  {
    Rep(|b.before|, UF_MAX) + Rep(|b.text|, b.p) + Rep(|b.after|, UF_MAX)
  }

  function AllText(bs: seq<Block>): string {
    if bs == [] then "" else BlockText(bs[0]) + AllText(bs[1..])
  }

  function AllLabels(bs: seq<Block>): (q: seq<nat>)
    ensures |q| == |AllText(bs)|
  {
    if bs == [] then [] else BlockLabels(bs[0]) + AllLabels(bs[1..])
  }

  predicate Distinct(bs: seq<Block>) {
    && (forall i | 0 <= i < |bs| :: bs[i].p < UF_MAX)
    && forall i, j | 0 <= i < j < |bs| :: bs[i].p != bs[j].p
  }

  lemma {:induction false} NotThere(bs: seq<Block>, p: nat)
    requires p < UF_MAX && forall i | 0 <= i < |bs| :: bs[i].p != p
    ensures Count(AllLabels(bs), p) == 0
  {
    if bs != [] {
      NotThere(bs[1..], p);
      NoOther(BlockLabels(bs[0]), p);
      Appended(BlockLabels(bs[0]), AllLabels(bs[1..]), p);
    }
  }

  lemma InBlock(b: Block)
    requires b.p < UF_MAX
    ensures Count(BlockLabels(b), b.p) == |b.text|
    ensures b.text != "" ==> First(BlockLabels(b), b.p) == |b.before|
  {
    hide Count, First;
    RepCount(|b.before|, UF_MAX, b.p);
    RepCount(|b.text|, b.p, b.p);
    RepCount(|b.after|, UF_MAX, b.p);
    Pasted(Rep(|b.before|, UF_MAX), Rep(|b.text|, b.p), Rep(|b.after|, UF_MAX), b.p);
  }

  /** Each component is found where its label first occurs. */
  lemma {:induction false} Found(bs: seq<Block>, j: nat)
    requires Distinct(bs) && j < |bs|
    ensures var q, k := AllLabels(bs), |bs[j].text|;
            && Count(q, bs[j].p) == k
            && (k > 0 ==> First(q, bs[j].p) + k <= |q|)
            && (k > 0 ==> AllText(bs)[First(q, bs[j].p)..First(q, bs[j].p) + k] == bs[j].text)
  {
    hide Count, First, BlockLabels, BlockText;
    var p := bs[j].p;
    Appended(BlockLabels(bs[0]), AllLabels(bs[1..]), p);
    if j == 0 {
      NotThere(bs[1..], p);
      InBlock(bs[0]);
      assert bs[0].text != "" ==>
          AllText(bs)[|bs[0].before|..|bs[0].before| + |bs[0].text|] == bs[0].text by {
        BlockHolds(bs[0], AllText(bs[1..]));
      }
    } else {
      NotThere([bs[0]], p);
      assert AllLabels([bs[0]]) == BlockLabels(bs[0]) by {
        assert [bs[0]][1..] == [];
      }
      assert bs[1..][j - 1] == bs[j];
      Found(bs[1..], j - 1);
      Shifted(BlockText(bs[0]), AllText(bs[1..]), First(AllLabels(bs[1..]), p), |bs[j].text|);
    }
  }

  lemma BlockHolds(b: Block, rest: string)
    ensures |b.before| + |b.text| <= |BlockText(b) + rest|
    ensures (BlockText(b) + rest)[|b.before|..|b.before| + |b.text|] == b.text
  {
  }

  lemma Shifted(a: string, b: string, i: nat, k: nat)
    ensures i + k <= |b| ==> (a + b)[|a| + i..|a| + i + k] == b[i..i + k]
  {
  }

  function Blocks(c: Components): seq<Block> {
    [ Block(UF_SCHEMA, "", c.schema, With(c.schema != "", "://")),
      Block(UF_USERINFO, "", c.userinfo, With(c.userinfo != "", "@")),
      Block(UF_HOST, With(c.v6, "["), c.host, With(c.v6, "]")),
      Block(UF_PORT, With(c.port != "", ":"), c.port, ""),
      Block(UF_PATH, "", c.path, ""),
      Block(UF_QUERY, With(c.query != "", "?"), c.query, ""),
      Block(UF_FRAGMENT, With(c.fragment != "", "#"), c.fragment, "") ]
  }

  lemma From(bs: seq<Block>, i: nat)
    requires i < |bs|
    ensures AllText(bs[i..]) == BlockText(bs[i]) + AllText(bs[i + 1..])
    ensures AllLabels(bs[i..]) == BlockLabels(bs[i]) + AllLabels(bs[i + 1..])
  {
    assert bs[i..][0] == bs[i] && bs[i..][1..] == bs[i + 1..];
  }

  lemma ServerBlocks(c: Components)
    ensures var bs := Blocks(c);
            && BlockText(bs[1]) + BlockText(bs[2]) + BlockText(bs[3]) == ServerText(c)
            && BlockLabels(bs[1]) + BlockLabels(bs[2]) + BlockLabels(bs[3]) == HostExpected(c)
  {
    hide With;
    assert Rep(0, UF_MAX) == [];
    assert "" + c.userinfo == c.userinfo;
  }

  lemma LocalBlocks(c: Components)
    ensures var bs := Blocks(c);
            && BlockText(bs[4]) + BlockText(bs[5]) + BlockText(bs[6]) == LocalText(c)
            && BlockLabels(bs[4]) + BlockLabels(bs[5]) + BlockLabels(bs[6]) == LocalLabels(c)
  {
    hide With;
    assert Rep(0, UF_MAX) == [];
  }

  lemma SchemaBlock(c: Components)
    ensures BlockText(Blocks(c)[0]) == SchemaText(c) && BlockLabels(Blocks(c)[0]) == SchemaLabels(c)
  {
    assert Rep(0, UF_MAX) == [];
  }

  /** The text and its expected labels, block by block. */
  lemma TextOfBlocks(c: Components)
    ensures UrlText(c) == AllText(Blocks(c))
    ensures SchemaLabels(c) + HostExpected(c) + LocalLabels(c) == AllLabels(Blocks(c))
  {
    hide BlockText, BlockLabels, ServerText, LocalText, SchemaLabels, HostExpected, LocalLabels, AllText, AllLabels;
    var bs := Blocks(c);
    SchemaBlock(c);
    ServerBlocks(c);
    LocalBlocks(c);
    assert bs[0..] == bs && bs[7..] == [];
    From(bs, 0);
    From(bs, 1);
    From(bs, 2);
    From(bs, 3);
    From(bs, 4);
    From(bs, 5);
    From(bs, 6);
    Nested(BlockText(bs[0]), BlockText(bs[1]), BlockText(bs[2]), BlockText(bs[3]), BlockText(bs[4]), BlockText(bs[5]), BlockText(bs[6]));
    Nested(BlockLabels(bs[0]), BlockLabels(bs[1]), BlockLabels(bs[2]), BlockLabels(bs[3]), BlockLabels(bs[4]), BlockLabels(bs[5]),
           BlockLabels(bs[6]));
    NoBlocks();
  }

  lemma NoBlocks()
    ensures AllText([]) == "" && AllLabels([]) == []
  {
  }

  lemma Nested<T>(a: seq<T>, b: seq<T>, c: seq<T>, d: seq<T>, e: seq<T>, f: seq<T>, g: seq<T>)
    ensures a + (b + (c + (d + (e + (f + (g + [])))))) == a + (b + c + d) + (e + f + g)
  {
  }

  /** Which text each part should hold. */
  function Component(c: Components, p: nat): string
    requires p < UF_MAX
  {
    if p == UF_SCHEMA then c.schema
    else if p == UF_USERINFO then c.userinfo
    else if p == UF_HOST then c.host
    else if p == UF_PORT then c.port
    else if p == UF_PATH then c.path
    else if p == UF_QUERY then c.query
    else c.fragment
  }

  /** Splitting a printed URL gives back every component, and marks exactly those that are there. */
  lemma SplitPrinted(u: HttpParserUrl, c: Components, memory: string, n: nat, p: nat)
    requires Proper(c) && n <= |memory| && memory[..n] == UrlText(c) && p < UF_MAX
    requires u.Valid() && u.Describes(Labels(c.connect, memory[..n]))
    ensures p in u.fieldSet <==> Component(c, p) != ""
    ensures p in u.fieldSet ==> u.off[p] + u.len[p] <= n && Part(memory, u, p) == Component(c, p)
  {
    hide Labels, UrlText, AllText, AllLabels, Count, First, SchemaLabels, HostExpected, LocalLabels, Blocks, Component;
    TextLabels(c);
    TextOfBlocks(c);
    var j := BlockOf(c, p);
    Found(Blocks(c), j);
    if p in u.fieldSet {
      Slice(memory, n, u.off[p], u.len[p]);
    }
  }

  lemma Slice(s: string, n: nat, a: nat, k: nat)
    requires a + k <= n <= |s|
    ensures s[..n][a..a + k] == s[a..a + k]
  {
  }

  lemma BlockOf(c: Components, p: nat) returns (j: nat)
    requires p < UF_MAX
    ensures Distinct(Blocks(c)) && j < |Blocks(c)| && Blocks(c)[j].p == p && Blocks(c)[j].text == Component(c, p)
  {
    hide With;
    j := if p == UF_SCHEMA then 0 else if p == UF_USERINFO then 1 else if p == UF_HOST then 2 else if p == UF_PORT then 3
         else if p == UF_PATH then 4 else if p == UF_QUERY then 5 else 6;
  }

  /** When it is accepted: the number of the port must have 16 bits. */
  lemma PrintedAccepted(c: Components, memory: string, n: nat)
    requires Proper(c) && n <= |memory| && memory[..n] == UrlText(c)
    requires n < |memory| ==> !IsNum(memory[n])
    ensures AllNum(c.port)
    ensures Accepted(c.connect, memory, n) <==> DecValue(c.port) <= 65535
  {
    hide Labels, UrlText, AllText, AllLabels, Count, First, SchemaLabels, HostExpected, LocalLabels, Blocks, Regions, Rep, After,
         DecValue;
    var url := UrlText(c);
    TextParsed(c);
    PortDigits(c);
    PortPrinted(c, memory, n);
    if c.connect {
      AuthorityParts(c);
    }
  }

  lemma TextParsed(c: Components)
    requires Proper(c)
    ensures Parsed(c.connect, UrlText(c))
  {
    hide UrlText, SchemaLabels, LocalLabels, Regions, Rep, After, ServerText, With, Count;
    TextRegions(c);
    if c.host == "" {
      TextHost(c);
      NoHostExpected(c);
      NoSchema(c);
      NoHostOutside(c);
      Pasted(SchemaLabels(c), Rep(|ServerText(c)|, UF_HOST), LocalLabels(c), UF_SCHEMA);
      NoLabels(UF_SCHEMA);
    } else {
      TextHostLabels(c);
    }
  }

  lemma NoSchema(c: Components)
    requires Proper(c) && c.host == ""
    ensures SchemaLabels(c) == []
  {
  }

  lemma NoLabels(p: nat)
    ensures Count([], p) == 0 && Rep(0, UF_HOST) == []
  {
  }

  /** The target of a CONNECT request has a host and a port and nothing else. */
  lemma AuthorityParts(c: Components)
    requires Proper(c) && c.connect
    ensures forall p: nat | p < UF_MAX :: Count(Labels(true, UrlText(c)), p) > 0 <==> p == UF_HOST || p == UF_PORT
  {
    hide Labels, UrlText, AllText, AllLabels, Count, First, SchemaLabels, HostExpected, LocalLabels, Blocks;
    TextLabels(c);
    TextOfBlocks(c);
    forall p: nat | p < UF_MAX
      ensures Count(Labels(true, UrlText(c)), p) > 0 <==> p == UF_HOST || p == UF_PORT
    {
      var j := BlockOf(c, p);
      Found(Blocks(c), j);
    }
  }

  lemma PortDigits(c: Components)
    requires Proper(c)
    ensures AllNum(c.port)
  {
    forall i | 0 <= i < |c.port| ensures IsNum(c.port[i]) {
      assert Fits(UF_PORT, c.port[i]);
    }
  }

  lemma NoPortNoValue()
    ensures DecValue("") == 0
  {
  }

  lemma PortPrinted(c: Components, memory: string, n: nat)
    requires Proper(c) && n <= |memory| && memory[..n] == UrlText(c) && AllNum(c.port)
    requires n < |memory| ==> !IsNum(memory[n])
    ensures PortOf(c.connect, memory, n) == DecValue(c.port)
  {
    hide Labels, UrlText, AllText, AllLabels, Count, First, SchemaLabels, HostExpected, LocalLabels, Blocks, Component, DecValue,
         DigitsFrom, Proper, Regions, After, HostLabels, Parsed;
    TextLabels(c);
    TextOfBlocks(c);
    var j := BlockOf(c, UF_PORT);
    Found(Blocks(c), j);
    NoPortNoValue();
    PortComponent(c);
    if c.port != "" {
      var a, k := First(Labels(c.connect, memory[..n]), UF_PORT), |c.port|;
      Slice(memory, n, a, k);
      TextParsed(c);
      if a + k < n {
        PartIsRun(c.connect, memory[..n], UF_PORT, a + k - 1);
        PartIsRun(c.connect, memory[..n], UF_PORT, a + k);
        PortEnds(c.connect, memory[..n], a + k - 1);
      }
      DigitsStop(memory, a, k);
    }
  }

  lemma PortComponent(c: Components)
    ensures Component(c, UF_PORT) == c.port
  {
  }

  lemma DigitsStop(memory: string, a: nat, k: nat)
    requires a + k <= |memory| && AllNum(memory[a..a + k])
    requires a + k < |memory| ==> !IsNum(memory[a + k])
    ensures DigitsFrom(memory, a) == memory[a..a + k]
  {
    assert |DigitsFrom(memory, a)| == k;
  }

  /** A URL that ends with its port, and one more digit in the memory behind it: the URL says 8, the
      result says 80. */
  lemma PortReadsOn()
    ensures var memory := "a://h:80"; Accepted(false, memory, 7) && PortOf(false, memory, 7) == 80
  {
    hide Labels, UrlText, AllText, AllLabels, Count, First, SchemaLabels, HostExpected, LocalLabels, Blocks, Component, DecValue,
         DigitsFrom, Proper;
    var memory, c := "a://h:80", Components(false, "a", "", "h", false, "8", "", "", "");
    ShortUrl(c, memory);
    TextParsed(c);
    TextLabels(c);
    TextOfBlocks(c);
    var j := BlockOf(c, UF_PORT);
    Found(Blocks(c), j);
    PortComponent(c);
    var a := First(Labels(false, memory[..7]), UF_PORT);
    assert memory[..7][a] == memory[..7][a..a + 1][0] == '8';
    assert a == 6;
    Eighty(memory);
  }

  lemma ShortUrl(c: Components, memory: string)
    requires c == Components(false, "a", "", "h", false, "8", "", "", "") && memory == "a://h:80"
    ensures Proper(c) && UrlText(c) == memory[..7]
  {
    assert "a" + "://" + ("" + "" + "" + "h" + "" + ":" + "8") + "" == memory[..7];
  }

  lemma Eighty(memory: string)
    requires memory == "a://h:80"
    ensures DecValue(DigitsFrom(memory, 6)) == 80
  {
    assert DigitsFrom(memory, 8) == "" && DigitsFrom(memory, 7) == "0" && DigitsFrom(memory, 6) == "80";
    assert "80"[..1] == "8" && "8"[..0] == "";
    assert DecValue("8") == 8;
  }

  /** All three forms are there. */
  lemma Forms()
    ensures Proper(Components(false, "http", "u", "h", false, "80", "/p", "q", "f"))
    ensures Proper(Components(false, "", "", "", false, "", "/p", "q", "f"))
    ensures Proper(Components(true, "", "", "::1", true, "443", "", "", ""))
  {
  }
}
