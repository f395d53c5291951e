/** Which request targets the parser accepts, as texts. */
module Targets {
  import opened Bytes
  import opened HttpTypes
  import opened Dispatch
  import opened FirstLines

  // ---------- The grammar ----------

  /** What follows the first byte of a path or of a query: printable bytes of ASCII. */
  predicate Tail(t: string) {
    forall i | 0 <= i < |t| :: 33 <= t[i] as int <= 126
  }

  predicate PathTarget(url: string) {
    url != "" && (url[0] == '/' || url[0] == '*') && Tail(url[1..])
  }

  /** How far the server reaches: to the first slash or question mark. */
  function ServerEnd(t: string): (k: nat)
    ensures k <= |t| && (k < |t| ==> t[k] == '/' || t[k] == '?')
    ensures forall i | 0 <= i < k :: t[i] != '/' && t[i] != '?'
  {
    if t == "" || t[0] == '/' || t[0] == '?' then 0 else 1 + ServerEnd(t[1..])
  }

  predicate ServerByte(c: char) {
    || 'a' <= c <= 'z' || 'A' <= c <= 'Z' || '0' <= c <= '9' || c == '[' || c == ']' || c == '@'
    || c == '-' || c == '_' || c == '.' || c == '!' || c == '~' || c == '*' || c == '\'' || c == '(' || c == ')'
    || c == '%' || c == ';' || c == ':' || c == '&' || c == '=' || c == '+' || c == '$' || c == ','
  }

  /** A server, in which no two @ follow each other, and perhaps a path or a query. */
  predicate Authority(t: string) {
    var k := ServerEnd(t);
    && (forall i | 0 <= i < k :: ServerByte(t[i]))
    && (forall i | 0 < i < k :: !(t[i - 1] == '@' && t[i] == '@'))
    && (k < |t| ==> Tail(t[k + 1..]))
  }

  predicate Letter(c: char) {
    'a' <= c <= 'z' || 'A' <= c <= 'Z'
  }

  function SchemaEnd(url: string): (k: nat)
    ensures k <= |url| && (k < |url| ==> !Letter(url[k]))
    ensures forall i | 0 <= i < k :: Letter(url[i])
  {
    if url == "" || !Letter(url[0]) then 0 else 1 + SchemaEnd(url[1..])
  }

  /** A schema, "://" and a server. */
  predicate SchemaTarget(url: string) {
    var k := SchemaEnd(url);
    k > 0 && k + 3 < |url| && url[k..k + 3] == "://" && Authority(url[k + 3..])
  }

  // ---------- The machine accepts it ----------

  predicate InTail(s: State) {
    s.ReqPath? || s.ReqQueryStringStart? || s.ReqQueryString? || s.ReqFragmentStart? || s.ReqFragment?
  }

  predicate InServer(s: State) {
    s.ReqServerStart? || s.ReqServer? || s.ReqServerWithAt?
  }

  lemma TailByte(s: State, c: char)
    requires InTail(s)
    ensures if 33 <= c as int <= 126 then InTail(ParseUrlChar(s, c)) else ParseUrlChar(s, c).Dead?
  {
  }

  lemma {:induction false} TailEnd(s: State, t: string)
    requires InTail(s)
    ensures if Tail(t) then InTail(UrlEnd(s, t)) else UrlEnd(s, t).Dead?
    decreases |t|
  {
    hide ParseUrlChar, InTail;
    if t != "" {
      TailByte(s, t[0]);
      DeadUrl(t[1..]);
      if InTail(ParseUrlChar(s, t[0])) {
        TailEnd(ParseUrlChar(s, t[0]), t[1..]);
      }
      assert Tail(t) <==> 33 <= t[0] as int <= 126 && Tail(t[1..]) by {
        assert forall i | 0 < i < |t| :: t[i] == t[1..][i - 1];
      }
    }
  }

  lemma LowerLetter(c: char)
    ensures IsAlpha(c) <==> Letter(c)
  {
  }

  lemma ServerStep(s: State, c: char)
    requires InServer(s)
    ensures if c == '/' || c == '?' then InTail(ParseUrlChar(s, c))
            else if ServerByte(c) && !(s.ReqServerWithAt? && c == '@')
            then ParseUrlChar(s, c) == if c == '@' then ReqServerWithAt else ReqServer
            else ParseUrlChar(s, c).Dead?
  {
    LowerLetter(c);
  }

  /** Where an authority text leads: to the tail, or to a server state. */
  lemma {:induction false} ServerEnds(s: State, t: string)
    requires InServer(s)
    ensures var e := UrlEnd(s, t);
      if Authority(t) && !(s.ReqServerWithAt? && t != "" && t[0] == '@')
      then if ServerEnd(t) < |t| then InTail(e) else if t == "" then e == s else e.ReqServer? || e.ReqServerWithAt?
      else e.Dead?
    decreases |t|
  {
    hide ParseUrlChar, Tail, ServerByte, InTail;
    if t != "" {
      var u := t[1..];
      ServerStep(s, t[0]);
      DeadUrl(u);
      if t[0] == '/' || t[0] == '?' {
        TailEnd(ParseUrlChar(s, t[0]), u);
      } else {
        AuthorityCons(t);
        if ServerByte(t[0]) && !(s.ReqServerWithAt? && t[0] == '@') {
          ServerEnds(ParseUrlChar(s, t[0]), u);
        }
      }
    }
  }

  lemma AuthorityCons(t: string)
    requires t != "" && t[0] != '/' && t[0] != '?'
    ensures Authority(t) <==> ServerByte(t[0]) && Authority(t[1..]) && !(t[0] == '@' && |t| > 1 && t[1] == '@')
  {
    hide ServerByte;
    var u, k := t[1..], ServerEnd(t);
    assert k == 1 + ServerEnd(u);
    assert forall i | 0 <= i < |u| :: u[i] == t[i + 1];
    if k < |t| {
      assert u[k..] == t[k + 1..];
    }
    if Authority(t) {
      assert t[0] == '@' && |t| > 1 && t[1] == '@' ==> 1 < k;
    }
    if ServerByte(t[0]) && Authority(u) && !(t[0] == '@' && |t| > 1 && t[1] == '@') {
      forall i | 0 < i < k ensures !(t[i - 1] == '@' && t[i] == '@') {
        if i > 1 {
          assert !(u[i - 2] == '@' && u[i - 1] == '@');
        }
      }
      forall i | 0 <= i < k ensures ServerByte(t[i]) {
        if i > 0 {
          assert ServerByte(u[i - 1]);
        }
      }
    }
  }

  lemma SchemaBytes(c: char)
    ensures ParseUrlChar(ReqSchema, c) == if Letter(c) then ReqSchema else if c == ':' then ReqSchemaSlash else Dead
    ensures ParseUrlChar(ReqSchemaSlash, c) == if c == '/' then ReqSchemaSlashSlash else Dead
    ensures ParseUrlChar(ReqSchemaSlashSlash, c) == if c == '/' then ReqServerStart else Dead
    ensures ParseUrlChar(ReqSpacesBeforeUrl, c) ==
              if c == '/' || c == '*' then ReqPath else if Letter(c) then ReqSchema else Dead
  {
    LowerLetter(c);
  }

  predicate Accepts(s: State) {
    ReadsUrl(s) && !UrlOpen(s)
  }

  /** Behind at least one letter of a schema. */
  lemma {:induction false} SchemaEnds(t: string)
    ensures var k := SchemaEnd(t);
      Accepts(UrlEnd(ReqSchema, t)) <==> k + 3 < |t| && t[k..k + 3] == "://" && Authority(t[k + 3..])
    ensures var k := SchemaEnd(t);
      !UrlEnd(ReqSchema, t).Dead? <==> t[k..] <= "://" || (k + 3 < |t| && t[k..k + 3] == "://" && Authority(t[k + 3..]))
    decreases |t|
  {
    hide ParseUrlChar, Authority;
    if t != "" {
      SchemaBytes(t[0]);
      DeadUrl(t[1..]);
      if Letter(t[0]) {
        SchemaEnds(t[1..]);
        var k := SchemaEnd(t[1..]);
        if k + 3 < |t[1..]| {
          assert t[1..][k..k + 3] == t[k + 1..k + 4] && t[1..][k + 3..] == t[k + 4..];
        }
      } else if t[0] == ':' {
        SlashesEnd(t);
      }
    }
  }

  lemma SlashesEnd(t: string)
    requires t != "" && t[0] == ':'
    ensures Accepts(UrlEnd(ReqSchemaSlash, t[1..])) <==> 3 < |t| && t[..3] == "://" && Authority(t[3..])
    ensures !UrlEnd(ReqSchemaSlash, t[1..]).Dead? <==> t <= "://" || (3 < |t| && t[..3] == "://" && Authority(t[3..]))
  {
    hide ParseUrlChar, Authority;
    if |t| > 1 {
      SchemaBytes(t[1]);
      DeadUrl(t[1..][1..]);
      if t[1] == '/' && |t| > 2 {
        SchemaBytes(t[2]);
        DeadUrl(t[1..][1..][1..]);
        assert t[1..][1..][1..] == t[3..];
        ServerEnds(ReqServerStart, t[3..]);
        ServerAccepted(t[3..]);
        assert UrlEnd(ReqSchemaSlash, t[1..]) == UrlEnd(ReqSchemaSlashSlash, t[1..][1..]);
      }
    }
  }

  lemma ServerAccepted(t: string)
    ensures Accepts(UrlEnd(ReqServerStart, t)) <==> t != "" && Authority(t)
  {
    hide ParseUrlChar, Authority;
    ServerEnds(ReqServerStart, t);
  }

  lemma SchemaCons(url: string)
    requires url != "" && Letter(url[0])
    ensures var k, t := SchemaEnd(url), url[1..];
      && k == SchemaEnd(t) + 1 && t[k - 1..] == url[k..] && (k + 2 <= |t| ==> t[k - 1..k + 2] == url[k..k + 3] && t[k + 2..] == url[k + 3..])
  {
  }

  lemma FirstStep(url: string)
    requires url != ""
    ensures UrlEnd(ReqSpacesBeforeUrl, url) ==
              if url[0] == '/' || url[0] == '*' then UrlEnd(ReqPath, url[1..])
              else if Letter(url[0]) then UrlEnd(ReqSchema, url[1..])
              else Dead
  {
    hide ParseUrlChar;
    SchemaBytes(url[0]);
    DeadUrl(url[1..]);
  }

  /** Exactly these targets are accepted: for CONNECT a server, and otherwise a path, a * or a URL with a schema. */
  lemma TargetIff(connect: bool, url: string)
    ensures LegalTarget(connect, url) <==>
              if connect then url != "" && Authority(url) else PathTarget(url) || SchemaTarget(url)
  {
    hide ParseUrlChar, Authority, Tail;
    if connect {
      ServerAccepted(url);
    } else if url != "" {
      FirstStep(url);
      if url[0] == '/' || url[0] == '*' {
        TailEnd(ReqPath, url[1..]);
      } else if Letter(url[0]) {
        SchemaEnds(url[1..]);
        SchemaCons(url);
      }
    }
  }

  /** The letters of a schema, and what there is of the "://" behind them. */
  predicate SchemaOnly(url: string) {
    SchemaEnd(url) > 0 && url[SchemaEnd(url)..] <= "://"
  }

  /** The machine can stop within a schema, too. */
  lemma AliveIff(connect: bool, url: string)
    ensures !UrlEnd(UrlStart(connect), url).Dead? <==>
              if connect then Authority(url) else url == "" || PathTarget(url) || SchemaTarget(url) || SchemaOnly(url)
  {
    hide ParseUrlChar, Authority, Tail;
    if connect {
      ServerEnds(ReqServerStart, url);
    } else if url != "" {
      FirstStep(url);
      if url[0] == '/' || url[0] == '*' {
        TailEnd(ReqPath, url[1..]);
      } else if Letter(url[0]) {
        SchemaEnds(url[1..]);
        SchemaCons(url);
      }
    }
  }
}
