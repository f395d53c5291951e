/** What a client is told: for every request, accepted or refused, the bytes that a connection sends. */
module Answers {
  import opened HttpTypes
  import opened EventLog
  import opened MessageRuns
  import opened Headers
  import opened QueryString
  import opened Receiver
  import opened RoundTrips
  import opened Printing
  import opened Pipelining

  // ---------- The limits, in numbers ----------

  /** The headers announce a body of more than 1 MiB, or of a negative size. */
  predicate AnnouncesTooMuch(headers: seq<Header>) {
    var n := Atol(Get(headers, "Content-Length"));
    n < 0 || n > 1048576
  }

  predicate AwaitsContinue(headers: seq<Header>) {
    Get(headers, "Expect") == "100-continue"
  }

  /** A line that alone makes the request refused. */
  predicate RefusedLine(h: Header) {
    || (Key(h.name) == "content-length" && (Atol(h.value) < 0 || Atol(h.value) > 1048576))
    || (Key(h.name) == "expect" && h.value == "100-continue")
  }

  predicate NoRefusedLine(hs: seq<Header>) {
    forall i | 0 <= i < |hs| :: !RefusedLine(hs[i])
  }

  lemma LimitsAre(headers: seq<Header>)
    ensures TooLarge(headers) <==> AnnouncesTooMuch(headers)
    ensures Expects(headers) <==> AwaitsContinue(headers)
  {
    hide Get, Atol;
  }

  lemma KeysAre()
    ensures Key("Content-Length") == "content-length" && Key("Expect") == "expect" && Key("Connection") == "connection"
  {
    hide Key;
    KeyIs("Content-Length", "content-length");
    KeyIs("Expect", "expect");
    KeyIs("Connection", "connection");
  }

  lemma BearableIs(hs: seq<Header>)
    ensures Bearable(hs) <==> NoRefusedLine(hs)
  {
    hide Key, Atol;
    KeysAre();
    forall i | 0 <= i < |hs| ensures BearableLine(hs[i]) <==> !RefusedLine(hs[i]) {
    }
  }

  // ---------- The error of a refused request ----------

  lemma SaveError(r: Received)
    requires r.mode.Request?
    ensures SaveLast(r).error == if TooLarge(Saved(r)) then PARSE_BODY_TOO_LARGE
                                 else if Expects(Saved(r)) then PARSE_NEED_100_CONTINUE
                                 else r.error
  {
    hide Put, Atol, Get;
  }

  /** What is wrong when a request has been received. */
  lemma ErrorIs(url: string, hs: seq<Header>, framing: Framing, body: string, snap: Snapshot)
    ensures var r := OnAll(Fresh(Request, []), [Data(OnUrl, url)] + MessageEvents(hs, framing, body, snap));
      var headers := PutAll([], hs);
      && (AnnouncesTooMuch(headers) ==> r.error.PARSE_BODY_TOO_LARGE?)
      && (!AnnouncesTooMuch(headers) && AwaitsContinue(headers) ==> r.error.PARSE_NEED_100_CONTINUE?)
      && (NoRefusedLine(hs) ==> r.error == if |url| > 4096 then PARSE_URI_TOO_LONG else PARSE_OK)
  {
    hide Bearable, NoRefusedLine, AnnouncesTooMuch, AwaitsContinue, MessageEvents, HeaderEvents, QueryOf, NeverBad, Bad, TooLarge, Expects,
         SaveLast, PutAll, Saved, Sorted;
    var r0 := Fresh(Request, []);
    OnOne(r0, Data(OnUrl, url));
    var r1 := On(r0, Data(OnUrl, url));
    assert "" + url == url;
    OnAllConcat(r0, [Data(OnUrl, url)], MessageEvents(hs, framing, body, snap));
    NothingBad();
    EmptySorted();
    NothingSaved(r1);
    NeverBadIs([], hs);
    BearableIs(hs);
    LimitsAre(PutAll([], hs));
    HeadersFill(r1, hs);
    var s := OnAll(r1, HeaderEvents(hs));
    SaveError(s);
    if NoRefusedLine(hs) {
      HeadersOn(r1, hs);
    }
    TailOn(r1, hs, framing, body, snap);
  }

  lemma NothingSaved(r: Received)
    requires !r.gotValue
    ensures Saved(r) == r.msg.headers
  {
  }

  // ---------- The answer ----------

  predicate Version10(snap: Snapshot) {
    snap.httpMajor == 1 && snap.httpMinor == 0
  }

  /** A client of version 1.0, and one that says that it will close. */
  predicate Closes(headers: seq<Header>, snap: Snapshot) {
    Version10(snap) || Get(headers, "Connection") == "Close"
  }

  /** The reply that refuses a request: no body, the version of the connection or 1.0, and one header. */
  function Refusal(c: Cx, code: nat, phrase: string, headers: seq<Header>, snap: Snapshot): OutgoingReply {
    OutgoingReply(if Version10(snap) then 1 else c.major, if Version10(snap) then 0 else c.minor, code, phrase,
                  [Header("Connection", if Closes(headers, snap) then "Close" else "keep-alive")], "")
  }

  /** The reply of the handler as it is sent. */
  function Sent(p: OutgoingReply, headers: seq<Header>, snap: Snapshot): OutgoingReply {
    p.(major := if Version10(snap) then 1 else p.major, minor := if Version10(snap) then 0 else p.minor,
       headers := if Closes(headers, snap) then Put(p.headers, "Connection", "Close") else p.headers)
  }

  /** The five methods that a handler sees; every other request is shown to it as a GET. */
  function Shown(v: Method): Method {
    if v == GET || v == POST || v == PUT || v == HEAD || v == DELETE then v else GET
  }

  lemma ShownIs(v: Method)
    ensures Shown(v) == if KnownMethod(v) then v else GET
  {
  }

  lemma {:induction false} PutTwice(hs: seq<Header>, name: string, value: string)
    ensures Put(Put(hs, name, value), name, value) == Put(hs, name, value)
    decreases |hs|
  {
    hide Key, Before;
    if hs != [] && Key(hs[0].name) != Key(name) && !Before(Key(name), Key(hs[0].name)) {
      PutTwice(hs[1..], name, value);
      assert ([hs[0]] + Put(hs[1..], name, value))[1..] == Put(hs[1..], name, value);
    }
  }

  lemma PutOver(name: string, a: string, b: string)
    ensures Put([Header(name, a)], name, b) == [Header(name, b)]
  {
    hide Key;
  }

  lemma RefusedWith(h: Handler, c: Cx, r: Received, snap: Snapshot, code: nat, phrase: string)
    requires !r.error.PARSE_OK?
    requires if r.error.PARSE_BODY_TOO_LARGE? then code == 413 && phrase == "Request entity too large"
             else if r.error.PARSE_URI_TOO_LONG? then code == 414 && phrase == "Request URI too long"
             else code == 400 && phrase == "Bad request"
    ensures Serve(h, c.(r := r), snap)
         == Cx(Fresh(Request, []), Refusal(c, code, phrase, r.msg.headers, snap).major, Refusal(c, code, phrase, r.msg.headers, snap).minor,
               if Closes(r.msg.headers, snap) then ST_SHOULD_CLOSE else ST_PARSE_ERROR, c.served,
               c.out + ReplyText(Refusal(c, code, phrase, r.msg.headers, snap)))
  {
    hide ReplyText, Get, Put;
    PutOver("Connection", "keep-alive", "Close");
    PutTwice([Header("Connection", "keep-alive")], "Connection", "Close");
  }

  lemma AnsweredWith(h: Handler, c: Cx, r: Received, snap: Snapshot)
    requires r.error.PARSE_OK?
    ensures var p := Sent(h(r.msg, OutgoingReply(c.major, c.minor, 200, "OK", [Header("Connection", "keep-alive")], "")), r.msg.headers, snap);
      Serve(h, c.(r := r), snap)
      == Cx(Fresh(Request, []), p.major, p.minor, if Closes(r.msg.headers, snap) then ST_SHOULD_CLOSE else c.state,
            c.served + [r.msg], c.out + ReplyText(p))
  {
    hide ReplyText, Get, Put;
    var p := h(r.msg, OutgoingReply(c.major, c.minor, 200, "OK", [Header("Connection", "keep-alive")], ""));
    PutTwice(p.headers, "Connection", "Close");
  }

  /** The callbacks of one request, cut anyhow, end in serving what has been received. */
  lemma OneRequest(h: Handler, c: Cx, url: string, hs: seq<Header>, framing: Framing, body: string, snap: Snapshot, trace: seq<Event>)
    requires Join(trace) == [Data(OnUrl, url)] + MessageEvents(hs, framing, body, snap) && c.r == Fresh(Request, [])
    ensures CxOnAll(h, c, trace)
         == Serve(h, c.(r := OnAll(Fresh(Request, []), [Data(OnUrl, url)] + MessageEvents(hs, framing, body, snap))), snap)
  {
    hide Join, OnAll, MessageEvents, NoCompletion, UrlsLead, CxOnAll, Serve, Finish, On, CxAlike;
    var log := [Data(OnUrl, url)] + MessageEvents(hs, framing, body, snap);
    var front := FrontOf([Data(OnUrl, url)], hs, framing, body, snap);
    assert UrlsLead(log) by {
      LeadsOn(front, snap);
    }
    CxJoin(h, c, trace);
    BetweenRequests(CxOnAll(h, c, trace), CxOnAll(h, c, log), log);
    CxLast(h, c, front, MessageComplete(snap));
    BeforeCompletion(h, c, front);
    AllLast(c.r, front, MessageComplete(snap));
    OnMessage(OnAll(c.r, front), snap);
    CompletionServes(h, c.(r := OnAll(c.r, front)), snap);
  }

  lemma LeadsOn(front: Log, snap: Snapshot)
    requires UrlsLead(front)
    ensures UrlsLead(front + [MessageComplete(snap)])
  {
    var l := front + [MessageComplete(snap)];
    assert forall i | 0 <= i < |front| :: l[i] == front[i];
  }

  lemma CxLast(h: Handler, c: Cx, es: seq<Event>, e: Event)
    ensures CxOnAll(h, c, es + [e]) == CxOn(h, CxOnAll(h, c, es), e)
  {
    hide CxOn;
    assert (es + [e])[..|es|] == es;
  }

  lemma AllLast(r: Received, es: seq<Event>, e: Event)
    ensures OnAll(r, es + [e]) == On(OnAll(r, es), e)
  {
    hide On;
    assert (es + [e])[..|es|] == es;
  }

  lemma CompletionServes(h: Handler, c: Cx, snap: Snapshot)
    ensures CxOn(h, c, MessageComplete(snap)) == Serve(h, c.(r := Finish(c.r, snap)), snap)
  {
    hide Serve, Finish;
  }

  /** The connection after a refusal. */
  function Refused(c: Cx, code: nat, phrase: string, headers: seq<Header>, snap: Snapshot): Cx {
    var p := Refusal(c, code, phrase, headers, snap);
    Cx(Fresh(Request, []), p.major, p.minor, if Closes(headers, snap) then ST_SHOULD_CLOSE else ST_PARSE_ERROR, c.served, c.out + ReplyText(p))
  }

  /** The connection after an accepted request: the handler saw it, and its reply was sent. */
  function Accepted(h: Handler, c: Cx, m: Receiver.Message, snap: Snapshot): Cx {
    var p := Sent(h(m, OutgoingReply(c.major, c.minor, 200, "OK", [Header("Connection", "keep-alive")], "")), m.headers, snap);
    Cx(Fresh(Request, []), p.major, p.minor, if Closes(m.headers, snap) then ST_SHOULD_CLOSE else c.state,
       c.served + [m], c.out + ReplyText(p))
  }

  /** Every request at a connection between two requests, any lines, framing and body, its callbacks cut anyhow.
      Headers that announce more than 1 MiB are answered with 413, otherwise a wait for 100-continue with 400,
      and a URL of more than 4096 bytes among lines of which none is refused with 414; with such lines and a
      shorter URL the handler is shown the request and its reply is sent.  A line that is refused is not made good
      by a later one. */
  lemma EveryAnswer(h: Handler, c: Cx, url: string, hs: seq<Header>, framing: Framing, body: string, snap: Snapshot, trace: seq<Event>)
    requires Join(trace) == [Data(OnUrl, url)] + MessageEvents(hs, framing, body, snap) && c.r == Fresh(Request, [])
    ensures var d, headers := CxOnAll(h, c, trace), PutAll([], hs);
      && (AnnouncesTooMuch(headers) ==> d == Refused(c, 413, "Request entity too large", headers, snap))
      && (!AnnouncesTooMuch(headers) && AwaitsContinue(headers) ==> d == Refused(c, 400, "Bad request", headers, snap))
      && (NoRefusedLine(hs) && |url| > 4096 ==> d == Refused(c, 414, "Request URI too long", headers, snap))
      && (NoRefusedLine(hs) && |url| <= 4096 ==>
            d == Accepted(h, c, Receiver.Message(headers, body, Shown(snap.verb), url, QueryOf(map[], url), 200), snap))
      && (!NoRefusedLine(hs) ==>
            || d == Refused(c, 413, "Request entity too large", headers, snap)
            || d == Refused(c, 414, "Request URI too long", headers, snap)
            || d == Refused(c, 400, "Bad request", headers, snap))
  {
    hide Join, OnAll, MessageEvents, CxOnAll, Serve, QueryOf, NoRefusedLine, AnnouncesTooMuch, AwaitsContinue, PutAll, Refusal, Sent, ReplyText,
         Bearable, TooLarge, Closes;
    OneRequest(h, c, url, hs, framing, body, snap, trace);
    ErrorIs(url, hs, framing, body, snap);
    RequestOn(url, hs, framing, body, snap);
    BearableIs(hs);
    ShownIs(snap.verb);
    var r := OnAll(Fresh(Request, []), [Data(OnUrl, url)] + MessageEvents(hs, framing, body, snap));
    if r.error.PARSE_OK? {
      AnsweredWith(h, c, r, snap);
    } else if r.error.PARSE_BODY_TOO_LARGE? {
      RefusedWith(h, c, r, snap, 413, "Request entity too large");
    } else if r.error.PARSE_URI_TOO_LONG? {
      RefusedWith(h, c, r, snap, 414, "Request URI too long");
    } else {
      RefusedWith(h, c, r, snap, 400, "Bad request");
    }
  }
}
