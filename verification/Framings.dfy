/** How the end of a message is found, by its header lines and its status code. */
module Framings {
  import opened Bytes
  import opened HttpTypes
  import opened Dispatch
  import opened EventLog
  import opened Machine
  import opened Execution
  import opened Recognisers
  import opened HeaderLines
  import opened StatusLines
  import opened MessageRuns
  import opened Headers
  import opened Receiver
  import opened RoundTrips

  // ---------- What a header line says ----------

  /** The headers that the parser knows, by their names in lower case. */
  lemma KnownNames(name: string)
    ensures Classify(name).ConnectionHeader? <==> LowerString(name) == "connection" || LowerString(name) == "proxy-connection"
    ensures Classify(name).LengthHeader? <==> LowerString(name) == "content-length"
    ensures Classify(name).EncodingHeader? <==> LowerString(name) == "transfer-encoding"
    ensures Classify(name).UpgradeHeader? <==> LowerString(name) == "upgrade"
  {
    var l := LowerString(name);
    assert "connection"[0] == 'c' && "proxy-connection"[0] == 'p' && "content-length"[0] == 'c'
        && "transfer-encoding"[0] == 't' && "upgrade"[0] == 'u';
    assert "connection"[3] == 'n' && "content-length"[3] == 't';
  }

  /** A word in lower case, followed by nothing but spaces. */
  predicate Says(value: string, word: string) {
    |value| >= |word| && LowerString(value[..|word|]) == word && forall i | |word| <= i < |value| :: value[i] == ' '
  }

  /** The values that the parser knows. */
  lemma KnownValues(value: string)
    ensures IsLiteral(value, CHUNKED) <==> Says(value, "chunked")
    ensures IsLiteral(value, KEEP_ALIVE) <==> Says(value, "keep-alive")
    ensures IsLiteral(value, CLOSE) <==> Says(value, "close")
  {
    LiteralSays(value, CHUNKED);
    LiteralSays(value, KEEP_ALIVE);
    LiteralSays(value, CLOSE);
  }

  lemma LiteralSays(value: string, lit: Literal)
    ensures IsLiteral(value, lit) <==> Says(value, Text(lit))
  {
    hide Text, ToLower;
    if |value| >= Length(lit) {
      var l := LowerString(value[..Length(lit)]);
      assert forall i | 0 <= i < Length(lit) :: l[i] == ToLower(value[i]);
      if l == Text(lit) {
        assert forall i | 0 <= i < Length(lit) :: ToLower(value[i]) == Text(lit)[i];
      }
    }
  }

  /** The line does not say how the body is delimited. */
  predicate Unframing(h: Header) {
    var name := LowerString(h.name);
    && (name == "content-length" ==> h.value == "")
    && (name == "transfer-encoding" ==> !Says(h.value, "chunked"))
    && (name == "upgrade" ==> h.value == "")
  }

  predicate AllUnframing(hs: seq<Header>) {
    forall i | 0 <= i < |hs| :: Unframing(hs[i])
  }

  lemma {:induction false} NothingFramed(flags: Flags, n: nat, hs: seq<Header>)
    requires LegalHeaders(hs) && AllUnframing(hs)
    ensures BlockLength(n, hs) == n
    ensures var r := BlockFlags(flags, hs); r == flags.(keepAlive := r.keepAlive, close := r.close)
    decreases |hs|
  {
    hide Classify, IsLiteral, Says, LegalHeader;
    if hs != [] {
      var h := hs[0];
      assert LegalHeader(h) && Unframing(h);
      KnownNames(h.name);
      KnownValues(h.value);
      NothingFramed(LineFlags(flags, Classify(h.name), h.value), LineOf(n, h), hs[1..]);
    }
  }

  /** What a header line can show about its message. */
  datatype Sign = ClosesIt | KeepsIt | IsChunked | Upgrades

  predicate Shows(h: Header, sign: Sign) {
    var name := LowerString(h.name);
    match sign
    case ClosesIt => (name == "connection" || name == "proxy-connection") && Says(h.value, "close")
    case KeepsIt => (name == "connection" || name == "proxy-connection") && Says(h.value, "keep-alive")
    case IsChunked => name == "transfer-encoding" && Says(h.value, "chunked")
    case Upgrades => name == "upgrade" && h.value != ""
  }

  predicate SomeShows(hs: seq<Header>, sign: Sign) {
    exists i | 0 <= i < |hs| :: Shows(hs[i], sign)
  }

  lemma ShowsCons(hs: seq<Header>, sign: Sign)
    requires hs != []
    ensures SomeShows(hs, sign) <==> Shows(hs[0], sign) || SomeShows(hs[1..], sign)
  {
    hide Shows;
    if SomeShows(hs, sign) {
      var i :| 0 <= i < |hs| && Shows(hs[i], sign);
      assert i > 0 ==> hs[1..][i - 1] == hs[i];
    }
    if SomeShows(hs[1..], sign) {
      var i :| 0 <= i < |hs[1..]| && Shows(hs[1..][i], sign);
      assert hs[i + 1] == hs[1..][i];
    }
  }

  lemma NotBothWords(value: string)
    ensures !(Says(value, "close") && Says(value, "keep-alive"))
  {
    FirstLetter(value, "close");
    FirstLetter(value, "keep-alive");
  }

  lemma FirstLetter(value: string, word: string)
    ensures Says(value, word) && word != "" ==> ToLower(value[0]) == word[0]
  {
    if Says(value, word) && word != "" {
      assert LowerString(value[..|word|])[0] == ToLower(value[0]);
    }
  }

  lemma LineShows(flags: Flags, h: Header)
    ensures var r := LineFlags(flags, Classify(h.name), h.value);
      && (r.close <==> flags.close || Shows(h, ClosesIt)) && (r.keepAlive <==> flags.keepAlive || Shows(h, KeepsIt))
      && (r.chunked <==> flags.chunked || Shows(h, IsChunked)) && (r.upgrade <==> flags.upgrade || Shows(h, Upgrades))
      && r.trailing == flags.trailing && r.skipBody == flags.skipBody
  {
    hide Classify, IsLiteral, Says;
    KnownNames(h.name);
    KnownValues(h.value);
    NotBothWords(h.value);
  }

  /** What the flags of a header block mean. */
  lemma {:induction false} FlagsSay(flags: Flags, hs: seq<Header>)
    ensures var r := BlockFlags(flags, hs);
      && (r.close <==> flags.close || SomeShows(hs, ClosesIt)) && (r.keepAlive <==> flags.keepAlive || SomeShows(hs, KeepsIt))
      && (r.chunked <==> flags.chunked || SomeShows(hs, IsChunked)) && (r.upgrade <==> flags.upgrade || SomeShows(hs, Upgrades))
      && r.trailing == flags.trailing && r.skipBody == flags.skipBody
    decreases |hs|
  {
    hide Classify, LineFlags, Shows, SomeShows;
    if hs == [] {
      NoneShows();
    } else {
      LineShows(flags, hs[0]);
      forall sign ensures SomeShows(hs, sign) <==> Shows(hs[0], sign) || SomeShows(hs[1..], sign) {
        ShowsCons(hs, sign);
      }
      FlagsSay(LineFlags(flags, Classify(hs[0].name), hs[0].value), hs[1..]);
    }
  }

  lemma NoneShows()
    ensures forall sign :: !SomeShows([], sign)
  {
  }

  /** Whether the connection persists, by version and header lines (section 8.1 of RFC 2616). */
  predicate KeptOpen(major: nat, minor: nat, hs: seq<Header>) {
    if major >= 1 && minor >= 1 then !SomeShows(hs, ClosesIt) else SomeShows(hs, KeepsIt)
  }

  lemma PersistsIs(major: nat, minor: nat, hs: seq<Header>)
    ensures Persists(major, minor, BlockFlags(NO_FLAGS, hs)) <==> KeptOpen(major, minor, hs)
  {
    hide BlockFlags, SomeShows;
    FlagsSay(NO_FLAGS, hs);
  }

  lemma ShowsAppended(hs: seq<Header>, ts: seq<Header>, sign: Sign)
    ensures SomeShows(hs + ts, sign) <==> SomeShows(hs, sign) || SomeShows(ts, sign)
  {
    hide Shows;
    var all := hs + ts;
    assert forall i | 0 <= i < |hs| :: all[i] == hs[i];
    assert forall i | 0 <= i < |ts| :: all[|hs| + i] == ts[i];
    if SomeShows(ts, sign) {
      var i :| 0 <= i < |ts| && Shows(ts[i], sign);
      assert Shows(all[|hs| + i], sign);
    }
  }

  /** Behind a chunked message the lines of its trailers count, too. */
  lemma ChunkedPersists(major: nat, minor: nat, hs: seq<Header>, ts: seq<Header>)
    ensures Persists(major, minor, BlockFlags(BlockFlags(NO_FLAGS, hs).(trailing := true), ts)) <==> KeptOpen(major, minor, hs + ts)
  {
    hide BlockFlags, SomeShows;
    FlagsSay(NO_FLAGS, hs);
    FlagsSay(BlockFlags(NO_FLAGS, hs).(trailing := true), ts);
    ShowsAppended(hs, ts, ClosesIt);
    ShowsAppended(hs, ts, KeepsIt);
  }

  function LineOf(n: nat, h: Header): nat
    requires LegalHeader(h)
  {
    LineLength(n, Classify(h.name), h.value)
  }

  // ---------- Responses without a length ----------

  /** Codes of responses that never have a body (section 4.3 of RFC 2616). */
  predicate Bodiless(code: nat) {
    100 <= code <= 199 || code == 204 || code == 304
  }

  predicate Unframed(major: nat, minor: nat, code: nat, phrase: string, hs: seq<Header>) {
    && major <= 999 && minor <= 999 && code <= 999 && LegalPhrase(phrase) && LegalHeaders(hs) && AllUnframing(hs)
    && |ResponseHead(major, minor, code, phrase, hs)| <= HTTP_MAX_HEADER_SIZE
  }

  ghost predicate AtResponse(m: Machine) {
    m.f.state.StartRes? && m.f.typ.Response? && m.f.nread == 0 && !m.f.verb.CONNECT? && !EndsWith(m.log, OnHeaderField)
  }

  /** The head of such a response. */
  lemma UnframedHead(resets: Policy, m: Machine, major: nat, minor: nat, code: nat, phrase: string, hs: seq<Header>)
    returns (m': Machine, g: Fields)
    requires Unframed(major, minor, code, phrase, hs) && AtResponse(m)
    ensures Reads(resets, m, ResponseHead(major, minor, code, phrase, hs), m')
    ensures g == m.f.(state := g.state, index := g.index, headerState := g.headerState, nread := 0,
                      httpMajor := major, httpMinor := minor, statusCode := code,
                      flags := BlockFlags(NO_FLAGS, hs), contentLength := ULLONG_MAX, upgrade := false)
    ensures var log := m.log + HeaderEvents(hs);
      if Bodiless(code)
      then m' == Completed(resets, Machine(To(g, NextState(Response, major, minor, g.flags)), log + [HeadersComplete(NoBody)]))
      else m' == Machine(To(g, BodyIdentityEof), log + [HeadersComplete(UntilEof)])
  {
    hide Step, Reads, Run, LegalHeaders, AllUnframing, BlockLength, BlockFlags, StatusLine, Lines, LegalPhrase, HeaderEvents, Push, Completed;
    assert |Crlf()| == 2 by { assert Crlf() == [CR, LF]; }
    hide Crlf;
    var first := StatusLine(major, minor, code, phrase);
    var m1 := StatusLineRead(resets, m, major, minor, code, phrase);
    var m2 := HeaderBlock(resets, m1, hs);
    NothingFramed(NO_FLAGS, ULLONG_MAX, hs);
    CrlfEnds();
    m' := HeadEnd(resets, m2, Crlf());
    ReadsConcat(resets, m, first, m1, Lines(hs), m2);
    ReadsConcat(resets, m, first + Lines(hs), m2, Crlf(), m');
    g := HeadRead(m2.f);
    Hundreds(code);
    PushHeadersComplete(m2.log, if Bodiless(code) then NoBody else UntilEof);
  }

  lemma Hundreds(code: nat)
    ensures code / 100 == 1 <==> 100 <= code <= 199
  {
  }

  /** A response whose lines announce neither chunks nor a length, and whose code allows a body: everything
      behind the empty line is its body, and there is no completion. */
  lemma EofBodyRead(resets: Policy, m: Machine, major: nat, minor: nat, code: nat, phrase: string, hs: seq<Header>, body: string)
    returns (m': Machine)
    requires Unframed(major, minor, code, phrase, hs) && AtResponse(m) && !Bodiless(code)
    ensures Reads(resets, m, ResponseHead(major, minor, code, phrase, hs) + body, m')
    ensures m'.log == m.log + HeaderEvents(hs) + [HeadersComplete(UntilEof)] + if body == "" then [] else [Data(OnBody, body)]
    ensures m'.f.state.BodyIdentityEof? && m'.f.errno == m.f.errno && SnapshotOf(m'.f) == Snapshot(m.f.verb, code, major, minor)
    ensures m'.f.typ.Response?
  {
    hide Step, Reads, Unframed, ResponseHead, HeaderEvents, BlockFlags;
    var m1, g := UnframedHead(resets, m, major, minor, code, phrase, hs);
    m' := BodyUntilEof(resets, m1, body);
    ReadsConcat(resets, m, ResponseHead(major, minor, code, phrase, hs), m1, body, m');
  }

  lemma BodyUntilEof(resets: Policy, m: Machine, body: string) returns (m': Machine)
    requires m.f.state.BodyIdentityEof? && m.f.contentLength <= ULLONG_MAX && !EndsWith(m.log, OnBody)
    ensures Reads(resets, m, body, m') && m'.f == m.f
    ensures m'.log == m.log + if body == "" then [] else [Data(OnBody, body)]
  {
    hide Step;
    if body == "" {
      m' := m;
    } else {
      RunBody(resets, m, body, |body|);
      assert body[..|body|] == body;
      m' := BodyRead(resets, m, body);
    }
  }

  /** Until the zero-length call, which completes it. */
  lemma EofCompletes(resets: Policy, m: Machine, after: Machine, n: nat)
    requires m.f.state.BodyIdentityEof? && m.f.errno == HPE_OK && Executed(resets, m, "", after, n)
    ensures n == 0 && after.log == m.log + [MessageComplete(SnapshotOf(m.f))]
    ensures resets(after.log) ==> after.f == Init(m.f.typ)
    ensures !resets(after.log) ==> after.f == m.f
  {
    CompletedLog(resets, m);
  }

  /** With a code that allows no body it is complete at the empty line; whether another one may follow is a
      matter of version and Connection header. */
  lemma BodilessRead(resets: Policy, m: Machine, major: nat, minor: nat, code: nat, phrase: string, hs: seq<Header>)
    returns (m': Machine)
    requires Unframed(major, minor, code, phrase, hs) && AtResponse(m) && Bodiless(code)
    ensures Reads(resets, m, ResponseHead(major, minor, code, phrase, hs), m')
    ensures m'.log == m.log + HeaderEvents(hs) + [HeadersComplete(NoBody), MessageComplete(Snapshot(m.f.verb, code, major, minor))]
    ensures resets(m'.log) ==> m'.f == Init(Response)
    ensures !resets(m'.log) ==>
              m'.f.state == if KeptOpen(major, minor, hs) then StartRes else Dead
  {
    hide Step, Reads, Unframed, ResponseHead, HeaderEvents, BlockFlags, KeptOpen;
    var g;
    m', g := UnframedHead(resets, m, major, minor, code, phrase, hs);
    var log := m.log + HeaderEvents(hs);
    CompletedLog(resets, Machine(To(g, NextState(Response, major, minor, g.flags)), log + [HeadersComplete(NoBody)]));
    PersistsIs(major, minor, hs);
    assert m'.log == log + [HeadersComplete(NoBody)] + [MessageComplete(Snapshot(m.f.verb, code, major, minor))];
  }

  /** However the callbacks of a reply that ends with its connection were cut, it has arrived. */
  lemma EofReplyArrives(h0: seq<Header>, hs: seq<Header>, body: string, snap: Snapshot, trace: seq<Event>)
    requires Join(trace) == HeaderEvents(hs) + [HeadersComplete(UntilEof)] + (if body == "" then [] else [Data(OnBody, body)])
                            + [MessageComplete(snap)]
    ensures OnAll(Fresh(Response, h0), trace)
         == Received(Response, PARSE_OK, "", "", false, Receiver.Message(PutAll(h0, hs), body, GET, "", map[], snap.statusCode))
  {
    hide Join, OnAll, PutAll;
    assert Join(trace) == MessageEvents(hs, UntilEof, body, snap);
    ReplyOn(h0, hs, UntilEof, body, snap, trace);
  }

  /** There are such replies: the shortest one. */
  lemma ShortestReply(code: nat)
    requires code <= 999
    ensures Unframed(1, 1, code, "", [])
  {
    hide Decimal;
    ShortNumber(code);
    ShortNumber(1);
    assert ResponseHead(1, 1, code, "", []) == "HTTP/" + Decimal(1) + "." + Decimal(1) + " " + Decimal(code) + " " + "" + Crlf() + "" + Crlf();
  }

  lemma ShortNumber(n: nat)
    requires n <= 999
    ensures |Decimal(n)| <= 3
  {
    assert |Decimal(n / 10)| <= 2 by {
      assert |Decimal(n / 10 / 10)| <= 1;
    }
  }

  // ---------- Requests on one connection, without a reset ----------

  datatype Incoming = Incoming(verb: Method, url: string, lines: seq<Header>, body: string)

  predicate LegalIncoming(q: Incoming) {
    LegalRequest(q.verb, q.url, q.lines, q.body)
  }

  predicate AllLegalIncoming(qs: seq<Incoming>) {
    forall i | 0 <= i < |qs| :: LegalIncoming(qs[i])
  }

  function IncomingText(qs: seq<Incoming>): string {
    if qs == [] then "" else RequestHead(qs[0].verb, qs[0].url, qs[0].lines) + qs[0].body + IncomingText(qs[1..])
  }

  lemma LinesAreLegal(q: Incoming)
    requires LegalIncoming(q)
    ensures LegalHeaders(q.lines)
  {
  }

  function IncomingEvents(qs: seq<Incoming>, status: nat): Log
    requires AllLegalIncoming(qs)
    decreases |qs|
  {
    if qs == [] then []
    else
      assert LegalIncoming(qs[0]);
      RequestEvents(qs[0].verb, qs[0].url, qs[0].lines, qs[0].body, status) + IncomingEvents(qs[1..], status)
  }

  /** A parser that is never reset reads requests one behind the other as long as no line closes the connection;
      behind one that does it is dead. */
  lemma {:induction false} KeptAlive(resets: Policy, m: Machine, qs: seq<Incoming>) returns (m': Machine)
    requires (forall log :: !resets(log)) && AllLegalIncoming(qs)
    requires forall i | 0 <= i < |qs| - 1 :: !SomeShows(qs[i].lines, ClosesIt)
    requires m.f.state.StartReq? && m.f.typ.Request? && m.f.nread == 0 && AtStart(m.log)
    ensures Reads(resets, m, IncomingText(qs), m')
    ensures m'.log == m.log + IncomingEvents(qs, m.f.statusCode)
    ensures m'.f.state == if qs != [] && SomeShows(qs[|qs| - 1].lines, ClosesIt) then Dead else StartReq
    decreases |qs|
  {
    hide Step, Reads, Run, LegalRequest, RequestHead, RequestEvents, SomeShows, BlockFlags;
    if qs == [] {
      m' := m;
      ReadsNothing(resets, m);
      assert m.log + [] == m.log;
    } else {
      var q := qs[0];
      assert LegalIncoming(q);
      var m1 := RequestRead(resets, m, q.verb, q.url, q.lines, q.body);
      FlagsSay(NO_FLAGS, q.lines);
      var text := RequestHead(q.verb, q.url, q.lines) + q.body;
      if |qs| == 1 {
        m' := m1;
        assert qs[1..] == [] && text + "" == text;
        assert IncomingEvents(qs[1..], m.f.statusCode) == [];
      } else {
        LinesAreLegal(q);
        EndsAtStart(m.log, q, m.f.statusCode);
        m' := KeptAlive(resets, m1, qs[1..]);
        ReadsConcat(resets, m, text, m1, IncomingText(qs[1..]), m');
        assert qs[1..][|qs[1..]| - 1] == qs[|qs| - 1];
      }
    }
  }

  lemma EndsAtStart(log: Log, q: Incoming, status: nat)
    requires LegalHeaders(q.lines)
    ensures AtStart(log + RequestEvents(q.verb, q.url, q.lines, q.body, status))
  {
    hide LegalHeaders, HeaderEvents, FramingFor;
  }
}
