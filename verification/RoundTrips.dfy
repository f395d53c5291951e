/** What is printed is what is read: requests and replies survive printing and parsing. */
module RoundTrips {
  import opened HttpTypes
  import opened EventLog
  import opened MessageRuns
  import opened Fragmentation
  import opened Headers
  import opened QueryString
  import opened Receiver

  // ---------- URLs in pieces ----------

  function UrlPieces(pieces: seq<string>): seq<Event> {
    seq(|pieces|, i requires 0 <= i < |pieces| => Data(OnUrl, pieces[i]))
  }

  /** The limit on URLs does not depend on fragmentation: it is exceeded if and only if the whole URL
      exceeds it, and otherwise the whole URL has arrived. */
  lemma {:induction false} UrlLimit(r: Received, pieces: seq<string>)
    requires r.mode.Request? && r.msg.url == "" && !r.error.PARSE_URI_TOO_LONG?
    ensures var s := OnAll(r, UrlPieces(pieces));
      && (s.error.PARSE_URI_TOO_LONG? <==> |Concat(pieces)| > MAX_URI_LENGTH)
      && (!s.error.PARSE_URI_TOO_LONG? ==> s == r.(msg := r.msg.(url := Concat(pieces))))
    decreases |pieces|
  {
    if pieces != [] {
      var n := |pieces| - 1;
      UrlLimit(r, pieces[..n]);
      assert UrlPieces(pieces)[..n] == UrlPieces(pieces[..n]);
      ConcatLast(pieces, n);
      assert pieces[..n + 1] == pieces;
    }
  }

  // ---------- Headers ----------

  predicate Bad(headers: seq<Header>) {
    TooLarge(headers) || Expects(headers)
  }

  predicate NeverBad(h0: seq<Header>, hs: seq<Header>)
    decreases |hs|
  {
    !Bad(h0) && (hs == [] || NeverBad(Put(h0, hs[0].name, hs[0].value), hs[1..]))
  }

  predicate Clean(r: Received) {
    r.gotValue || (r.key == "" && r.value == "")
  }

  function WithHeaders(r: Received, hs: seq<Header>): Received {
    r.(msg := r.msg.(headers := hs), key := "", value := "", gotValue := false)
  }

  /** The headers without the checks. */
  function Saved(r: Received): seq<Header> {
    if r.gotValue then Put(r.msg.headers, r.key, r.value) else r.msg.headers
  }

  lemma SaveGood(r: Received)
    requires Clean(r) && (r.mode.Request? ==> !Bad(Saved(r)))
    ensures SaveLast(r) == WithHeaders(r, Saved(r))
  {
    hide Put, Atol, Get;
  }

  lemma OnHeader(r: Received, h: Header)
    ensures OnAll(r, [Data(OnHeaderField, h.name), Data(OnHeaderValue, h.value)])
         == On(On(r, Data(OnHeaderField, h.name)), Data(OnHeaderValue, h.value))
  {
    hide On;
    var es := [Data(OnHeaderField, h.name), Data(OnHeaderValue, h.value)];
    assert es[..1] == [es[0]];
    assert OnAll(r, [es[0]]) == On(r, es[0]) by {
      assert [es[0]][..0] == [];
    }
  }

  /** The header callbacks of a list of headers put them all into the map. */
  lemma {:induction false} HeadersOn(r: Received, hs: seq<Header>)
    requires Clean(r) && (r.mode.Request? ==> NeverBad(Saved(r), hs))
    ensures var s := OnAll(r, HeaderEvents(hs));
      Clean(s) && SaveLast(s) == WithHeaders(r, PutAll(Saved(r), hs))
    decreases |hs|
  {
    hide Put, Bad, SaveLast, Atol, Get;
    if hs == [] {
      SaveGood(r);
    } else {
      var h := hs[0];
      SaveGood(r);
      OnHeader(r, h);
      var r1 := OnAll(r, [Data(OnHeaderField, h.name), Data(OnHeaderValue, h.value)]);
      assert "" + h.name == h.name && "" + h.value == h.value;
      OnAllConcat(r, [Data(OnHeaderField, h.name), Data(OnHeaderValue, h.value)], HeaderEvents(hs[1..]));
      HeadersOn(r1, hs[1..]);
    }
  }

  /** No line of the list breaks a limit. */
  predicate Bearable(hs: seq<Header>) {
    forall i | 0 <= i < |hs| :: BearableLine(hs[i])
  }

  /** The checks that are made as the map fills fail if and only if a line breaks a limit. */
  lemma {:induction false} NeverBadIs(h0: seq<Header>, hs: seq<Header>)
    requires Sorted(h0) && !Bad(h0)
    ensures NeverBad(h0, hs) <==> Bearable(hs)
    decreases |hs|
  {
    hide Put, Get, Key, Sorted, Atol;
    if hs != [] {
      var h := hs[0];
      GetPut(h0, h.name, h.value, CONTENT_LENGTH_NAME);
      GetPut(h0, h.name, h.value, EXPECT_NAME);
      PutSorted(h0, h.name, h.value);
      BearableCons(hs);
      if !Bad(Put(h0, h.name, h.value)) {
        NeverBadIs(Put(h0, h.name, h.value), hs[1..]);
      }
    }
  }

  predicate BearableLine(h: Header) {
    && (Key(h.name) == Key(CONTENT_LENGTH_NAME) ==> 0 <= Atol(h.value) <= MAX_UPLOAD_SIZE)
    && (Key(h.name) == Key(EXPECT_NAME) ==> h.value != ONE_HUNDRED_CONTINUE)
  }

  lemma BearableCons(hs: seq<Header>)
    requires hs != []
    ensures Bearable(hs) <==> BearableLine(hs[0]) && Bearable(hs[1..])
  {
    hide BearableLine;
    if BearableLine(hs[0]) && Bearable(hs[1..]) {
      forall i | 0 <= i < |hs| ensures BearableLine(hs[i]) {
        if i > 0 {
          assert hs[i] == hs[1..][i - 1];
        }
      }
    }
    if Bearable(hs) {
      assert forall i | 0 <= i < |hs[1..]| :: hs[1..][i] == hs[i + 1];
    }
  }

  lemma NothingBad()
    ensures !Bad([])
  {
    AtolDigits("");
  }

  // ---------- The callbacks of a whole message ----------

  lemma OnOne(r: Received, e: Event)
    ensures OnAll(r, [e]) == On(r, e)
  {
    hide On;
    assert [e][..0] == [];
  }

  lemma OnBodyEvents(r: Received, body: string)
    ensures OnAll(r, BodyEvents(body))
         == if r.error.PARSE_BODY_TOO_LARGE? then r else r.(msg := r.msg.(body := r.msg.body + body))
  {
    if body != "" {
      OnOne(r, Data(OnBody, body));
    } else {
      assert r.msg.body + "" == r.msg.body;
    }
  }

  /** The callbacks after the first line, with any framing. */
  function MessageEvents(hs: seq<Header>, framing: Framing, body: string, snap: Snapshot): seq<Event> {
    HeaderEvents(hs) + [HeadersComplete(framing)] + BodyEvents(body) + [MessageComplete(snap)]
  }

  lemma OnComplete(r: Received, framing: Framing)
    ensures On(r, HeadersComplete(framing)) == SaveLast(r)
  {
  }

  lemma OnMessage(r: Received, snap: Snapshot)
    ensures On(r, MessageComplete(snap)) == Finish(r, snap)
  {
  }

  /** Headers, body and completion in terms of the receiver behind the headers. */
  lemma TailOn(r: Received, hs: seq<Header>, framing: Framing, body: string, snap: Snapshot)
    ensures var s := SaveLast(OnAll(r, HeaderEvents(hs)));
      OnAll(r, MessageEvents(hs, framing, body, snap))
      == Finish(if s.error.PARSE_BODY_TOO_LARGE? then s else s.(msg := s.msg.(body := s.msg.body + body)), snap)
  {
    hide On, SaveLast, Finish, BodyEvents, HeaderEvents;
    var es, hc := HeaderEvents(hs), HeadersComplete(framing);
    var r1 := OnAll(r, es);
    OnAllConcat(r, es, [hc]);
    OnOne(r1, hc);
    OnComplete(r1, framing);
    var r2 := SaveLast(r1);
    OnAllConcat(r, es + [hc], BodyEvents(body));
    OnBodyEvents(r2, body);
    var r3 := OnAll(r2, BodyEvents(body));
    OnAllConcat(r, es + [hc] + BodyEvents(body), [MessageComplete(snap)]);
    OnOne(r3, MessageComplete(snap));
    OnMessage(r3, snap);
  }

  lemma SaveMessage(r: Received)
    ensures SaveLast(r).msg == WithHeaders(r, Saved(r)).msg && SaveLast(r).mode == r.mode
    ensures Clean(r) ==> SaveLast(r) == WithHeaders(r, Saved(r)).(error := SaveLast(r).error)
    ensures r.mode.Request? && TooLarge(Saved(r)) ==> SaveLast(r).error.PARSE_BODY_TOO_LARGE?
    ensures r.mode.Request? ==> (SaveLast(r).error.PARSE_OK? <==> r.error.PARSE_OK? && !Bad(Saved(r)))
  {
    hide Put, Atol, Get;
  }

  /** The header callbacks fill the map whether or not a limit is broken, and the limits decide about
      the error. */
  lemma {:induction false} HeadersFill(r: Received, hs: seq<Header>)
    requires Clean(r) && r.mode.Request?
    ensures var s := OnAll(r, HeaderEvents(hs));
      && Clean(s) && s.mode == r.mode && Saved(s) == PutAll(Saved(r), hs)
      && SaveLast(s) == WithHeaders(r, PutAll(Saved(r), hs)).(error := SaveLast(s).error)
      && (SaveLast(s).error.PARSE_OK? <==> r.error.PARSE_OK? && NeverBad(Saved(r), hs))
    decreases |hs|
  {
    hide Put, SaveLast, Atol, Get, Bad;
    SaveMessage(r);
    if hs != [] {
      var h := hs[0];
      OnHeader(r, h);
      var es := [Data(OnHeaderField, h.name), Data(OnHeaderValue, h.value)];
      var r1 := OnAll(r, es);
      assert "" + h.name == h.name && "" + h.value == h.value;
      OnAllConcat(r, es, HeaderEvents(hs[1..]));
      HeadersFill(r1, hs[1..]);
    }
  }

  // ---------- Requests ----------

  /** What a request that arrived whole looks like; of other methods than the known ones it keeps none. */
  function Arrived(v: Method, url: string, headers: seq<Header>, body: string): Received {
    Received(Request, PARSE_OK, "", "", false,
             Message(headers, body, if KnownMethod(v) then v else GET, url, QueryOf(map[], url), 200))
  }

  predicate WithinLimits(url: string, hs: seq<Header>) {
    |url| <= MAX_URI_LENGTH && Bearable(hs)
  }

  /** What becomes of a request whose header lines are `hs`, in whatever order they come. */
  predicate Decided(r: Received, v: Method, url: string, hs: seq<Header>, body: string) {
    && r.msg.headers == PutAll([], hs)
    && (r.error.PARSE_OK? <==> WithinLimits(url, hs))
    && (r.error.PARSE_OK? ==> r == Arrived(v, url, PutAll([], hs), body))
    && (TooLarge(PutAll([], hs)) ==> r.error.PARSE_BODY_TOO_LARGE? && r.msg.body == "")
  }

  lemma RequestOn(url: string, hs: seq<Header>, framing: Framing, body: string, snap: Snapshot)
    ensures Decided(OnAll(Fresh(Request, []), [Data(OnUrl, url)] + MessageEvents(hs, framing, body, snap)),
                    snap.verb, url, hs, body)
  {
    hide Bearable, MessageEvents, HeaderEvents, QueryOf, NeverBad, Bad, TooLarge, SaveLast, PutAll;
    var r := Fresh(Request, []);
    OnOne(r, Data(OnUrl, url));
    assert "" + url == url && "" + body == body;
    var r1 := On(r, Data(OnUrl, url));
    OnAllConcat(r, [Data(OnUrl, url)], MessageEvents(hs, framing, body, snap));
    NothingBad();
    assert Sorted([]) by { EmptySorted(); }
    NeverBadIs([], hs);
    HeadersFill(r1, hs);
    SaveMessage(OnAll(r1, HeaderEvents(hs)));
    TailOn(r1, hs, framing, body, snap);
  }

  lemma {:induction false} HeadersLead(hs: seq<Header>)
    ensures NoCompletion(HeaderEvents(hs)) && forall i | 0 <= i < |HeaderEvents(hs)| :: !IsUrl(HeaderEvents(hs)[i])
    decreases |hs|
  {
    if hs != [] {
      HeadersLead(hs[1..]);
    }
  }

  /** The callbacks of a message but its completion. */
  lemma FrontOf(first: seq<Event>, hs: seq<Header>, framing: Framing, body: string, snap: Snapshot) returns (front: Log)
    requires |first| <= 1 && forall e | e in first :: IsUrl(e)
    ensures first + MessageEvents(hs, framing, body, snap) == front + [MessageComplete(snap)]
    ensures NoCompletion(front) && UrlsLead(front)
  {
    hide HeaderEvents;
    HeadersLead(hs);
    var rest := HeaderEvents(hs) + [HeadersComplete(framing)] + BodyEvents(body);
    front := first + rest;
    assert forall i | 0 <= i < |rest| :: !IsUrl(rest[i]) && !rest[i].MessageComplete?;
    forall i | 0 <= i < |front| ensures !front[i].MessageComplete? && (IsUrl(front[i]) ==> i == 0) {
      if i < |first| {
        assert front[i] in first;
      } else {
        assert front[i] == rest[i - |first|];
      }
    }
  }

  /** Every request with a URL, any header lines and any body, its callbacks cut anyhow: it arrives
      unchanged and with no error if and only if its URL and its lines keep the limits; its headers are
      the last-wins map of its lines in any case; and if that map announces too much, none of the body is
      kept. */
  lemma RequestDecided(url: string, hs: seq<Header>, framing: Framing, body: string, snap: Snapshot, trace: seq<Event>)
    requires Join(trace) == [Data(OnUrl, url)] + MessageEvents(hs, framing, body, snap)
    ensures Decided(OnAll(Fresh(Request, []), trace), snap.verb, url, hs, body)
  {
    hide Join, OnAll, MessageEvents, QueryOf, Bearable, TooLarge, PutAll, NoCompletion, UrlsLead;
    RequestOn(url, hs, framing, body, snap);
    var front := FrontOf([Data(OnUrl, url)], hs, framing, body, snap);
    OnWhole(Fresh(Request, []), trace, front, snap);
  }

  /** However its callbacks were cut, a whole request within the limits has arrived unchanged. */
  lemma RequestArrives(v: Method, url: string, hs: seq<Header>, body: string, status: nat, trace: seq<Event>)
    requires LegalHeaders(hs) && WithinLimits(url, hs)
    requires Join(trace) == RequestEvents(v, url, hs, body, status)
    ensures OnAll(Fresh(Request, []), trace) == Arrived(v, url, PutAll([], hs), body)
  {
    hide Join, OnAll, LegalHeaders, WithinLimits, Arrived, PutAll, TooLarge;
    RequestDecided(url, hs, FramingFor(hs), body, Snapshot(v, status, 1, 1), trace);
  }

  /** A request whose length is too large is refused, and none of its body is kept. */
  lemma RequestRefused(v: Method, url: string, hs: seq<Header>, body: string, status: nat, trace: seq<Event>)
    requires LegalHeaders(hs) && TooLarge(PutAll([], hs))
    requires Join(trace) == RequestEvents(v, url, hs, body, status)
    ensures var r := OnAll(Fresh(Request, []), trace); r.error.PARSE_BODY_TOO_LARGE? && r.msg.body == ""
  {
    hide Join, OnAll, LegalHeaders, WithinLimits, Arrived, PutAll, TooLarge;
    RequestDecided(url, hs, FramingFor(hs), body, Snapshot(v, status, 1, 1), trace);
  }

  // ---------- Replies ----------

  lemma ReplyOn(h0: seq<Header>, hs: seq<Header>, framing: Framing, body: string, snap: Snapshot, trace: seq<Event>)
    requires Join(trace) == MessageEvents(hs, framing, body, snap)
    ensures OnAll(Fresh(Response, h0), trace)
      == Received(Response, PARSE_OK, "", "", false, Message(PutAll(h0, hs), body, GET, "", map[], snap.statusCode))
  {
    hide Join, OnAll, MessageEvents, PutAll, NoCompletion, UrlsLead, HeaderEvents;
    var r := Fresh(Response, h0);
    HeadersOn(r, hs);
    TailOn(r, hs, framing, body, snap);
    assert "" + body == body;
    var front := FrontOf([], hs, framing, body, snap);
    assert [] + MessageEvents(hs, framing, body, snap) == MessageEvents(hs, framing, body, snap);
    OnWhole(r, trace, front, snap);
  }
}
