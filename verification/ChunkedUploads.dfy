/** Chunked requests from the wire to the store. */
module ChunkedUploads {
  import opened Bytes
  import opened HttpTypes
  import opened Dispatch
  import opened EventLog
  import opened Machine
  import opened Recognisers
  import opened HeaderLines
  import opened FirstLines
  import opened MessageRuns
  import opened Chunked
  import opened Framings
  import opened Headers
  import opened QueryString
  import opened BodyStore
  import opened Receiver
  import opened RoundTrips
  import opened Printing

  function ChunkedEvents(url: string, hs: seq<Header>, body: string, trailers: seq<Header>, snap: Snapshot): seq<Event> {
    [Data(OnUrl, url)] + HeaderEvents(hs) + [HeadersComplete(Framing.Chunked)] + BodyEvents(body) + HeaderEvents(trailers)
    + [MessageComplete(snap)]
  }

  function ButLast(ts: seq<Header>): seq<Header> {
    if ts == [] then [] else ts[..|ts| - 1]
  }

  /** What trailers do: all but the last one enter the headers, because no callback saves the last. */
  function Trailed(r: Received, ts: seq<Header>): Received {
    if ts == [] then r
    else
      var last := ts[|ts| - 1];
      r.(msg := r.msg.(headers := PutAll(r.msg.headers, ButLast(ts))), key := last.name, value := last.value, gotValue := true)
  }

  lemma {:induction false} LastHeader(ts: seq<Header>)
    requires ts != []
    ensures var last := ts[|ts| - 1];
      HeaderEvents(ts) == HeaderEvents(ButLast(ts)) + [Data(OnHeaderField, last.name), Data(OnHeaderValue, last.value)]
    decreases |ts|
  {
    if |ts| > 1 {
      LastHeader(ts[1..]);
      assert ButLast(ts)[1..] == ButLast(ts[1..]);
    }
  }

  lemma ErrorsStay(r: Received, es: seq<Event>)
    ensures OnAll(r, es).error.PARSE_OK? ==> r.error.PARSE_OK?
    decreases |es|
  {
    hide On;
    if es != [] {
      ErrorsStay(r, es[..|es| - 1]);
      ErrorStays(OnAll(r, es[..|es| - 1]), es[|es| - 1]);
    }
  }

  lemma TrailersOn(r: Received, ts: seq<Header>)
    requires Clean(r) && !r.gotValue && r.mode.Request? && !Bad(r.msg.headers)
    ensures var s := OnAll(r, HeaderEvents(ts));
      && s == Trailed(r, ts).(error := s.error)
      && (s.error.PARSE_OK? <==> r.error.PARSE_OK? && NeverBad(r.msg.headers, ButLast(ts)))
  {
    hide On, SaveLast, Bad, PutAll, HeaderEvents;
    if ts == [] {
      assert HeaderEvents([]) == [] by { NoHeaders(); }
    } else {
      var front, last := ButLast(ts), ts[|ts| - 1];
      var es := [Data(OnHeaderField, last.name), Data(OnHeaderValue, last.value)];
      LastHeader(ts);
      OnAllConcat(r, HeaderEvents(front), es);
      HeadersFill(r, front);
      var s := OnAll(r, HeaderEvents(front));
      OnHeader(s, last);
      LastOn(s, last);
    }
  }

  lemma NoHeaders()
    ensures HeaderEvents([]) == []
  {
  }

  lemma LastOn(s: Received, h: Header)
    requires SaveLast(s).key == "" && SaveLast(s).value == ""
    ensures On(On(s, Data(OnHeaderField, h.name)), Data(OnHeaderValue, h.value))
         == SaveLast(s).(key := h.name, value := h.value, gotValue := true)
  {
    hide SaveLast;
    assert "" + h.name == h.name && "" + h.value == h.value;
  }

  /** What becomes of a chunked request. */
  predicate ChunkedDecided(r: Received, url: string, hs: seq<Header>, body: string, ts: seq<Header>, snap: Snapshot) {
    && (r.error.PARSE_OK? <==> WithinLimits(url, hs) && Bearable(ButLast(ts)))
    && (r.error.PARSE_OK? ==> r == Trailed(Arrived(snap.verb, url, PutAll([], hs), body), ts))
  }

  lemma FinishTrailed(r: Received, ts: seq<Header>, snap: Snapshot)
    ensures Finish(Trailed(r, ts), snap) == Trailed(Finish(r, snap), ts)
  {
    hide QueryOf, PutAll;
  }

  /** The receiver when the headers and the body have been called back, if there is no error by then. */
  lemma BeforeTrailers(url: string, hs: seq<Header>, body: string) returns (r: Received)
    ensures r == OnAll(Fresh(Request, []), [Data(OnUrl, url)] + HeaderEvents(hs) + [HeadersComplete(Framing.Chunked)] + BodyEvents(body))
    ensures r.error.PARSE_OK? <==> WithinLimits(url, hs)
    ensures r.error.PARSE_OK? ==> !Bad(PutAll([], hs)) && Sorted(PutAll([], hs))
    ensures r.error.PARSE_OK? ==>
              (r == Received(Request, PARSE_OK, "", "", false, Receiver.Message(PutAll([], hs), body, GET, url, map[], 200)))
  {
    hide Bearable, HeaderEvents, NeverBad, Bad, SaveLast, PutAll, BodyEvents, On, Sorted;
    var r0, first, es, hc := Fresh(Request, []), [Data(OnUrl, url)], HeaderEvents(hs), HeadersComplete(Framing.Chunked);
    OnOne(r0, first[0]);
    UrlOn(url);
    var r1 := On(r0, first[0]);
    OnAllConcat(r0, first, es);
    NothingBad();
    EmptySorted();
    NeverBadIs([], hs);
    HeadersFill(r1, hs);
    var r2 := OnAll(r1, es);
    SaveMessage(r2);
    OnAllConcat(r0, first + es, [hc]);
    OnOne(r2, hc);
    OnComplete(r2, Framing.Chunked);
    OnAllConcat(r0, first + es + [hc], BodyEvents(body));
    OnBodyEvents(SaveLast(r2), body);
    assert "" + body == body;
    r := OnAll(r0, first + es + [hc] + BodyEvents(body));
    LastWins([], hs, EXPECT_NAME);
  }

  lemma UrlOn(url: string)
    ensures var r := On(Fresh(Request, []), Data(OnUrl, url));
      r == if |url| > MAX_URI_LENGTH then Fresh(Request, []).(error := PARSE_URI_TOO_LONG)
           else Fresh(Request, []).(msg := Fresh(Request, []).msg.(url := url))
  {
    assert "" + url == url;
  }

  lemma ChunkedOn(url: string, hs: seq<Header>, body: string, ts: seq<Header>, snap: Snapshot)
    ensures ChunkedDecided(OnAll(Fresh(Request, []), ChunkedEvents(url, hs, body, ts, snap)), url, hs, body, ts, snap)
  {
    hide On, OnAll, HeaderEvents, BodyEvents, Bearable, WithinLimits, Bad, PutAll, Sorted, Finish, NeverBad;
    var front := [Data(OnUrl, url)] + HeaderEvents(hs) + [HeadersComplete(Framing.Chunked)] + BodyEvents(body);
    var r := BeforeTrailers(url, hs, body);
    var r0 := Fresh(Request, []);
    OnAllConcat(r0, front, HeaderEvents(ts));
    OnAllConcat(r0, front + HeaderEvents(ts), [MessageComplete(snap)]);
    var s := OnAll(r, HeaderEvents(ts));
    OnOne(s, MessageComplete(snap));
    OnMessage(s, snap);
    ErrorsStay(r, HeaderEvents(ts));
    FinishError(s, snap);
    if r.error.PARSE_OK? {
      TrailersOn(r, ts);
      NeverBadIs(PutAll([], hs), ButLast(ts));
      FinishTrailed(r, ts, snap);
      FinishArrived(url, PutAll([], hs), body, snap);
    }
  }

  lemma FinishError(s: Received, snap: Snapshot)
    ensures Finish(s, snap).error == s.error
  {
    hide QueryOf;
  }

  lemma FinishArrived(url: string, headers: seq<Header>, body: string, snap: Snapshot)
    ensures Finish(Received(Request, PARSE_OK, "", "", false, Receiver.Message(headers, body, GET, url, map[], 200)), snap)
         == Arrived(snap.verb, url, headers, body)
  {
    hide QueryOf;
  }

  /** A chunked request, its callbacks cut anyhow and on any disk, is accepted if and only if its URL, its
      lines and its trailers but the last keep the limits; it has then arrived whole, with these trailers
      among its headers, but for what the disk did not take of the payload of its chunks. */
  lemma ChunkedStored(url: string, hs: seq<Header>, cs: seq<Chunk>, trailers: seq<Header>, snap: Snapshot, trace: seq<Event>,
                      disk: Disk, a: Received)
    requires Join(trace) == ChunkedEvents(url, hs, Payload(cs), trailers, snap) && Stores(disk, a, OnAll(Fresh(Request, []), trace))
    ensures a.error.PARSE_OK? <==> WithinLimits(url, hs) && Bearable(ButLast(trailers))
    ensures a.error.PARSE_OK? ==> Stores(disk, a, Trailed(Arrived(snap.verb, url, PutAll([], hs), Payload(cs)), trailers))
  {
    hide Join, OnAll, Payload, WithinLimits, Bearable, Trailed, Arrived, NoCompletion, UrlsLead, PutAll, ChunkedEvents;
    ChunkedOn(url, hs, Payload(cs), trailers, snap);
    var front := ChunkedFront(url, hs, Payload(cs), trailers, snap);
    OnWhole(Fresh(Request, []), trace, front, snap);
  }

  lemma ChunkedFront(url: string, hs: seq<Header>, body: string, ts: seq<Header>, snap: Snapshot) returns (front: Log)
    ensures ChunkedEvents(url, hs, body, ts, snap) == front + [MessageComplete(snap)]
    ensures NoCompletion(front) && UrlsLead(front)
  {
    hide HeaderEvents;
    HeadersLead(hs);
    HeadersLead(ts);
    var first, rest := [Data(OnUrl, url)], HeaderEvents(hs) + [HeadersComplete(Framing.Chunked)] + BodyEvents(body) + HeaderEvents(ts);
    front := first + rest;
    assert forall i | 0 <= i < |rest| :: !IsUrl(rest[i]) && !rest[i].MessageComplete?;
    forall i | 0 <= i < |front| ensures !front[i].MessageComplete? && (IsUrl(front[i]) ==> i == 0) {
      assert i > 0 ==> front[i] == rest[i - 1];
    }
  }

  /** A chunked request on the wire: any legal lines that end in chunked, any chunks in any spelling. */
  predicate LegalChunkedRequest(v: Method, url: string, hs: seq<Header>, cs: seq<Chunk>, zero: string, extension: string,
                                trailers: seq<Header>) {
    && !v.CONNECT? && LegalUrl(url) && LegalHeaders(hs) && |RequestHead(v, url, hs)| <= HTTP_MAX_HEADER_SIZE
    && BlockFlags(NO_FLAGS, hs).chunked && !BlockFlags(NO_FLAGS, hs).upgrade
    && LegalChunkedBody(cs, zero, extension, trailers)
  }

  lemma ChunkedRequestRead(resets: Policy, m: Machine, v: Method, url: string, hs: seq<Header>, cs: seq<Chunk>, zero: string,
                           extension: string, trailers: seq<Header>) returns (m': Machine)
    requires LegalChunkedRequest(v, url, hs, cs, zero, extension, trailers)
    requires m.f.state.StartReq? && m.f.typ.Request? && m.f.nread == 0 && !EndsWith(m.log, OnUrl)
    ensures Reads(resets, m, RequestHead(v, url, hs) + ChunkedBody(cs, zero, extension, trailers), m')
    ensures m'.log == m.log + ChunkedEvents(url, hs, Payload(cs), trailers, Snapshot(v, m.f.statusCode, 1, 1))
    ensures resets(m'.log) ==> m'.f == Init(Request)
    ensures !resets(m'.log) ==>
              m'.f.state == (if SomeShows(hs + trailers, ClosesIt) then Dead else StartReq) && m'.f.nread == |Lines(trailers)| + 2
  {
    hide Step, Reads, Run, SomeShows, LegalHeaders, RequestLine, LegalTarget, Lines, Payload, ChunkedBody, LegalChunkedBody, BlockFlags,
         HeaderEvents, BodyEvents;
    assert |Crlf()| == 2 by { CrlfLength(); }
    hide Crlf;
    var m1 := RequestLineRead(resets, m, v, url);
    assert m1.log == m.log + [Data(OnUrl, url)];
    m' := ChunkedMessage(resets, m1, hs, cs, zero, extension, trailers);
    ChunkedPersists(1, 1, hs, trailers);
    var body := ChunkedBody(cs, zero, extension, trailers);
    ReadsConcat(resets, m, RequestLine(v, url), m1, Lines(hs) + Crlf() + body, m');
    assert RequestLine(v, url) + (Lines(hs) + Crlf() + body) == RequestHead(v, url, hs) + body;
  }

  /** From the wire to the store: a fresh parser reads a chunked request to its end, and however its
      callbacks were cut the request is accepted if and only if it keeps the limits, and has then kept the
      bytes of its chunks. */
  lemma ChunkedUpload(resets: Policy, v: Method, url: string, hs: seq<Header>, cs: seq<Chunk>, zero: string, extension: string,
                      trailers: seq<Header>, trace: seq<Event>, disk: Disk, a: Received) returns (m': Machine)
    requires LegalChunkedRequest(v, url, hs, cs, zero, extension, trailers)
    ensures Reads(resets, Machine(Init(Request), []), RequestHead(v, url, hs) + ChunkedBody(cs, zero, extension, trailers), m')
    ensures resets(m'.log) ==> m'.f == Init(Request)
    ensures Join(trace) == m'.log && Stores(disk, a, OnAll(Fresh(Request, []), trace)) ==>
              ((a.error.PARSE_OK? <==> WithinLimits(url, hs) && Bearable(ButLast(trailers)))
               && (a.error.PARSE_OK? ==> Stores(disk, a, Trailed(Arrived(v, url, PutAll([], hs), Payload(cs)), trailers))))
  {
    hide Reads, Run, Join, OnAll, Stores, ChunkedEvents, LegalChunkedRequest, WithinLimits, Bearable, Trailed, Arrived, PutAll, Payload;
    m' := ChunkedRequestRead(resets, Machine(Init(Request), []), v, url, hs, cs, zero, extension, trailers);
    NothingFirst(ChunkedEvents(url, hs, Payload(cs), trailers, Snapshot(v, 0, 1, 1)));
    if Join(trace) == m'.log && Stores(disk, a, OnAll(Fresh(Request, []), trace)) {
      ChunkedStored(url, hs, cs, trailers, Snapshot(v, 0, 1, 1), trace, disk, a);
    }
  }

  lemma NothingFirst(log: Log)
    ensures [] + log == log
  {
  }

  /** There are such requests. */
  lemma PlainChunked()
    ensures LegalChunkedRequest(POST, "/", [ChunkedLine()], [Chunk("5", "", "hello")], "0", "", [])
  {
    hide BlockFlags, Classify, Key, ChunkedLine;
    ChunkedLineSays();
    FiveIsLegal();
    assert |Lines([ChunkedLine()])| <= 40 by { ChunkedLineIsShort(); }
  }

  function ChunkedLine(): Header {
    Header(TRANSFER_ENCODING_NAME, "chunked")
  }

  lemma ChunkedLineIsShort()
    ensures |Lines([ChunkedLine()])| <= 40
  {
  }

  lemma ChunkedLineSays()
    ensures LegalHeader(ChunkedLine()) && BlockFlags(NO_FLAGS, [ChunkedLine()]) == NO_FLAGS.(chunked := true)
  {
    hide Classify, Key;
    assert AllToken(TRANSFER_ENCODING_NAME);
    ClassOfKey(TRANSFER_ENCODING_NAME);
    assert IsLiteral("chunked", CHUNKED);
  }

  lemma FiveIsLegal()
    ensures LegalSizeLine("5", "", 5) && LegalSizeLine("0", "", 0)
  {
    assert "5"[..0] == "" && "0"[..0] == "";
  }
}
