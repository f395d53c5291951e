/** http::Request: what arrives, and what is prepared for sending. */
module RequestObject {
  import opened Bytes
  import opened HttpTypes
  import opened HeaderLines
  import opened FirstLines
  import opened MessageRuns
  import opened Headers
  import opened QueryString
  import opened BodyStore
  import opened MessageBase
  import opened Receiver
  import opened Printing

  class Request {
    /** The base class subobject. */
    const msg: MessageBase.Message
    var verb: Method
    var url: string
    var host: string
    var query: Query
    var require100: bool

    ghost predicate Valid()
      reads this, msg, msg.body
    {
      msg.Valid() && KnownMethod(verb)
    }

    /** What a handler sees. */
    function View(): Receiver.Message
      reads this, msg, msg.body
    {
      Receiver.Message(msg.headers, msg.body.Contents(), verb, url, query, 200)
    }

    /** What is to be sent. */
    ghost function Outgoing(): OutgoingRequest
      reads this, msg, msg.body
    {
      OutgoingRequest(verb, url, host, msg.headers, msg.body.Contents())
    }

    constructor (disk: Disk)
      ensures Valid() && fresh(msg) && fresh(msg.body) && msg.body.disk == disk
      ensures View() == Fresh(HttpTypes.Request, []).msg && msg.data == ""
    {
      msg := new MessageBase.Message(disk);
      verb, url, host, query, require100 := GET, "", "", map[], false;
    }

    method AddUrlFragment(s: string)
      modifies this`url
      ensures url == old(url) + s
    {
      url := url + s;
    }

    /** extract_query_string */
    method ExtractQueryString()
      modifies this`query
      ensures query == QueryOf(old(query), url)
    {
      hide PairOf, Insert;
      var first := IndexFrom(url, '?', 0);
      ghost var q := QueryOf(query, url);
      var more := first != |url|;
      while more
        invariant more ==> first < |url| && q == InsertAll(query, Pieces(url[first + 1..], '&'))
        invariant !more ==> query == q
        decreases more, |url| - first
      {
        var next := IndexFrom(url, '&', first + 1);
        NextPiece(url, first, next);
        InsertPiece(first, next);
        more := next != |url|;
        first := next;
      }
    }

    /** One turn of the loop: the piece between two separators. */
    method InsertPiece(first: nat, next: nat)
      requires first < next <= |url|
      modifies this`query
      ensures query == Insert(old(query), PairOf(url[first + 1..next]))
    {
      hide PairOf, Insert;
      var size := next - first - 1;
      ghost var piece := url[first + 1..next];
      var i := 0;
      while i < size
        invariant 0 <= i <= size && query == old(query)
        invariant Free(piece[..i], '=')
      {
        if url[first + 1 + i] == '=' {
          CutPiece(piece, i);
          assert piece[..i] == url[first + 1..first + 1 + i] && piece[i + 1..] == url[first + 1 + i + 1..next];
          if i != 0 { // skip a pair without a name
            InsertPair(url[first + 1..first + 1 + i], url[first + 1 + i + 1..next]);
          } else {
            InsertNone(query);
          }
          return;
        }
        assert piece[..i + 1] == piece[..i] + [piece[i]];
        i := i + 1;
      }
      assert piece[..size] == piece;
      NoCut(piece);
      InsertPair(url[first + 1..next], "");
    }

    /** m_querystring.insert */
    method InsertPair(name: string, value: string)
      modifies this`query
      ensures query == Insert(old(query), Some((name, value)))
    {
      if name !in query {
        query := query[name := value];
      }
    }

    method Reset()
      requires Valid()
      modifies this, msg, msg.body
      ensures Valid() && View() == Fresh(HttpTypes.Request, []).msg && msg.data == "" && host == ""
      ensures verb == GET && url == "" && query == map[] && !require100 && msg.headers == [] && msg.body.Contents() == ""
    {
      msg.Reset();
      require100, verb, url, host, query := false, GET, "", "", map[];
    }

    /** The text of the request line and the headers. */
    method Head() returns (ss: string)
      ensures ss == RequestHead(verb, url, msg.headers)
    {
      hide Lines, Line, RequestLine, Crlf;
      ss := RequestLine(verb, url);
      var i := 0;
      NoLines();
      assert msg.headers[..0] == [];
      assert ss + "" == ss;
      while i < |msg.headers|
        invariant 0 <= i <= |msg.headers| && ss == RequestLine(verb, url) + Lines(msg.headers[..i])
      {
        LinesMore(msg.headers, i);
        ss := ss + Line(msg.headers[i]);
        i := i + 1;
      }
      assert msg.headers[..i] == msg.headers;
      ss := ss + Crlf();
    }

    /** The two headers that prepare sets. */
    method AddStandardHeaders()
      requires Valid()
      modifies msg`headers
      ensures Valid() && msg.headers == RequestHeaders(old(Outgoing()))
      ensures msg.GetHeader("Host") == host
      ensures verb != GET ==> msg.GetHeader("Content-Length") == SizeText(|msg.body.Contents()|)
      ensures forall name :: Key(name) != "host" && (Key(name) != "content-length" || verb == GET) ==>
                msg.GetHeader(name) == old(msg.GetHeader(name))
    {
      hide Put, Sorted, SizeText, KnownMethod, Get, Key, Has, RequestHeaders;
      ghost var q := Outgoing();
      forall name {
        RequestHeadersAre(q, name);
      }
      StandardNames();
      RequestHeadersAre(q, "Host");
      RequestHeadersAre(q, "Content-Length");
      WhatIsPut(q);
      msg.body.Tiers();
      msg.AddHeader(HOST_NAME, host);
      if verb != GET {
        msg.AddHeader(CONTENT_LENGTH_NAME, SizeText(msg.body.size));
      }
    }

    /** prepare: the bytes to send before the part of the body that is on disk. */
    method Prepare()
      requires Valid()
      modifies this`require100, msg
      ensures Valid()
      ensures msg.headers == RequestHeaders(old(Outgoing()))
      ensures msg.GetHeader("Host") == host
      ensures old(msg.data) == "" ==> MethodString(verb) + " " + url + " HTTP/1.1\r\n" <= msg.data
      ensures msg.data == old(msg.data) + RequestHead(verb, url, msg.headers)
                          + if Get(msg.headers, EXPECT_NAME) == ONE_HUNDRED_CONTINUE then "" else msg.body.data
      ensures Get(msg.headers, EXPECT_NAME) == ONE_HUNDRED_CONTINUE ==> require100
      ensures old(msg.data) == "" && Get(msg.headers, EXPECT_NAME) != ONE_HUNDRED_CONTINUE ==>
        msg.data + msg.body.file == RequestText(old(Outgoing()))
    {
      hide Sorted, RequestHeaders, RequestHead, Get, KnownMethod;
      ghost var q := Outgoing();
      AddStandardHeaders();
      var headers := Head();
      msg.data := msg.data + headers;
      if msg.GetHeader(EXPECT_NAME) == ONE_HUNDRED_CONTINUE {
        require100 := true;
      } else {
        msg.data := msg.data + msg.body.data;
      }
      assert msg.body.Contents() == q.body;
      HeadBegins(verb, url, msg.headers);
      assert headers + msg.body.data + msg.body.file == headers + (msg.body.data + msg.body.file);
    }
  }

  lemma StandardNames()
    ensures Key("Host") == "host" && Key("Content-Length") == "content-length" && "host" != "content-length"
  {
    hide Key;
    KeyIs("Host", "host");
    KeyIs("Content-Length", "content-length");
    assert |"host"| == 4;
  }

  lemma WhatIsPut(q: OutgoingRequest)
    ensures var hs := Put(q.headers, HOST_NAME, q.host);
      RequestHeaders(q) == if q.verb.GET? then hs else Put(hs, CONTENT_LENGTH_NAME, SizeText(|q.body|))
  {
    hide Put, SizeText;
  }

  lemma HeadBegins(v: Method, url: string, hs: seq<Header>)
    ensures MethodString(v) + " " + url + " HTTP/1.1\r\n" <= RequestHead(v, url, hs)
  {
    hide Lines, MethodString;
    assert Crlf() == "\r\n";
    assert " HTTP/1.1" + "\r\n" == " HTTP/1.1\r\n";
  }

  /** The separator after the piece that starts behind `first`. */
  lemma NextPiece(url: string, first: nat, next: nat)
    requires first < |url| && next == IndexFrom(url, '&', first + 1)
    ensures var pieces := Pieces(url[first + 1..], '&');
      pieces[0] == url[first + 1..next] && pieces[1..] == if next == |url| then [] else Pieces(url[next + 1..], '&')
  {
    var rest := url[first + 1..];
    IndexShift(url, '&', first + 1);
    var i := Index(rest, '&');
    assert i == next - first - 1;
    assert rest[..i] == url[first + 1..next];
    if next < |url| {
      assert rest[i + 1..] == url[next + 1..];
      assert Pieces(rest, '&') == [rest[..i]] + Pieces(rest[i + 1..], '&');
    } else {
      assert rest[..i] == rest;
      assert Pieces(rest, '&') == [rest];
    }
  }

  lemma IndexShift(s: string, c: char, from: nat)
    requires from <= |s|
    ensures Index(s[from..], c) == IndexFrom(s, c, from) - from
  {
    var i := IndexFrom(s, c, from);
    var j := Index(s[from..], c);
    if i < |s| { assert s[from..][i - from] == c; }
    if j < |s[from..]| { assert s[from + j] == c; }
    assert forall k | 0 <= k < j :: s[from..][k] == s[from + k];
  }

  /** The first '=' of a piece cuts it. */
  lemma CutPiece(piece: string, i: nat)
    requires i < |piece| && piece[i] == '=' && Free(piece[..i], '=')
    ensures PairOf(piece) == if i == 0 then None else Some((piece[..i], piece[i + 1..]))
  {
    assert forall k | 0 <= k < i :: piece[k] == piece[..i][k];
    assert Index(piece, '=') == i;
  }

  lemma NoCut(piece: string)
    requires Free(piece, '=')
    ensures PairOf(piece) == Some((piece, ""))
  {
    IndexOfNone(piece, '=');
  }

  lemma InsertNone(q: Query)
    ensures Insert(q, None) == q
  {
  }

  lemma NoLines()
    ensures Lines([]) == ""
  {
  }

  lemma {:induction false} LinesAppend(hs: seq<Header>, h: Header)
    ensures Lines(hs + [h]) == Lines(hs) + Line(h)
    decreases |hs|
  {
    hide Line;
    if hs == [] {
      assert [h][1..] == [];
      assert Lines([]) == "" && Line(h) + "" == Line(h) && "" + Line(h) == Line(h);
    } else {
      assert (hs + [h])[1..] == hs[1..] + [h];
      LinesAppend(hs[1..], h);
      assert Line(hs[0]) + (Lines(hs[1..]) + Line(h)) == Line(hs[0]) + Lines(hs[1..]) + Line(h);
    }
  }

  lemma LinesMore(hs: seq<Header>, i: nat)
    requires i < |hs|
    ensures Lines(hs[..i + 1]) == Lines(hs[..i]) + Line(hs[i])
  {
    assert hs[..i + 1] == hs[..i] + [hs[i]];
    LinesAppend(hs[..i], hs[i]);
  }
}
