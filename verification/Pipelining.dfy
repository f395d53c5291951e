/** A connection that serves requests one after another from one stream. */
module Pipelining {
  import opened HttpTypes
  import opened EventLog
  import opened Machine
  import opened FirstLines
  import opened MessageRuns
  import opened Grammar
  import opened Fragmentation
  import opened Headers
  import opened QueryString
  import opened Receiver
  import opened RoundTrips
  import opened Printing
  import opened ReplyObject

  /** ST_NEED_100_CONTINUE is never assigned in the source. */
  datatype CxState = ST_READY_FOR_DATA | ST_IO_ERROR | ST_PARSE_ERROR | ST_SHOULD_CLOSE

  /** What a request handler makes of a request and a blank reply. */
  type Handler = (Receiver.Message, OutgoingReply) -> OutgoingReply

  /** A connection whose sends succeed: the parser and its request, the version that replies carry, the
      state, the requests handed to the handler, and the bytes sent. */
  datatype Cx = Cx(r: Received, major: nat, minor: nat, state: CxState, served: seq<Receiver.Message>, out: string)

  const CLOSE_VALUE := "Close"

  /** process_error */
  function ErrorReply(e: Outcome, p: OutgoingReply): OutgoingReply {
    match e
    case PARSE_BODY_TOO_LARGE => p.(code := 413, phrase := "Request entity too large")
    case PARSE_URI_TOO_LONG => p.(code := 414, phrase := "Request URI too long")
    case _ => p.(code := 400, phrase := "Bad request")
  }

  function Closing(p: OutgoingReply): OutgoingReply {
    p.(headers := Put(p.headers, CONNECTION_NAME, CLOSE_VALUE))
  }

  predicate OldVersion(snap: Snapshot) {
    snap.httpMajor == 1 && snap.httpMinor == 0
  }

  predicate AsksToClose(m: Receiver.Message) {
    Get(m.headers, CONNECTION_NAME) == CLOSE_VALUE
  }

  /** The reply that process sends. */
  function Answer(h: Handler, r: Received, base: OutgoingReply, snap: Snapshot): OutgoingReply {
    var p := if r.error.PARSE_OK? then h(r.msg, base) else ErrorReply(r.error, base);
    var p' := if OldVersion(snap) then Closing(p.(major := 1, minor := 0)) else p;
    if AsksToClose(r.msg) then Closing(p') else p'
  }

  function StateAfter(s: CxState, r: Received, snap: Snapshot): CxState {
    if OldVersion(snap) || AsksToClose(r.msg) then ST_SHOULD_CLOSE
    else if !r.error.PARSE_OK? then ST_PARSE_ERROR
    else s
  }

  /** process, up to its return value: answer, send, and reset request, reply and parser. */
  function Serve(h: Handler, c: Cx, snap: Snapshot): Cx {
    var p := Answer(h, c.r, BlankReply(c.major, c.minor), snap);
    Cx(Fresh(Request, []), p.major, p.minor, StateAfter(c.state, c.r, snap),
       if c.r.error.PARSE_OK? then c.served + [c.r.msg] else c.served,
       c.out + ReplyText(p))
  }

  function CxOn(h: Handler, c: Cx, e: Event): Cx {
    match e
    case MessageComplete(snap) => Serve(h, c.(r := Finish(c.r, snap)), snap)
    case _ => c.(r := On(c.r, e))
  }

  function CxOnAll(h: Handler, c: Cx, events: seq<Event>): Cx
    decreases |events|
  {
    if events == [] then c else CxOn(h, CxOnAll(h, c, events[..|events| - 1]), events[|events| - 1])
  }

  lemma {:induction false} CxOnAllConcat(h: Handler, c: Cx, xs: seq<Event>, ys: seq<Event>)
    ensures CxOnAll(h, c, xs + ys) == CxOnAll(h, CxOnAll(h, c, xs), ys)
    decreases |ys|
  {
    hide CxOn;
    if ys == [] {
      assert xs + ys == xs;
    } else {
      assert (xs + ys)[..|xs + ys| - 1] == xs + ys[..|ys| - 1];
      CxOnAllConcat(h, c, xs, ys[..|ys| - 1]);
    }
  }

  // ---------- Fragments ----------

  /** Two connections that were told the same in different pieces agree on all but the URL of a request
      that is being refused. */
  predicate CxAlike(c: Cx, d: Cx, log: Log) {
    c.(r := d.r) == d && Alike(c.r, d.r, log)
  }

  lemma ServeAlike(h: Handler, c: Cx, d: Cx, log: Log, snap: Snapshot)
    requires CxAlike(c, d, log)
    ensures CxOn(h, c, MessageComplete(snap)) == CxOn(h, d, MessageComplete(snap))
  {
    hide ReplyText, QueryOf, Put, Get, Fresh, BlankReply;
    assert Erased(c.r).msg.headers == Erased(d.r).msg.headers && Erased(c.r).error == Erased(d.r).error;
  }

  /** What the connection does depends on the joined log only, and so do its replies to requests whose
      URL is too long: the state, the requests served, the bytes sent, and the receiver between requests. */
  lemma {:induction false} CxJoin(h: Handler, c: Cx, trace: seq<Event>)
    requires UrlsLead(Join(trace))
    ensures CxAlike(CxOnAll(h, c, trace), CxOnAll(h, c, Join(trace)), Join(trace))
    decreases |trace|
  {
    hide On, Push, Serve, Alike, UrlsLead;
    if trace == [] {
      AlikeSelf(c.r);
    } else {
      var front, e := trace[..|trace| - 1], trace[|trace| - 1];
      var log := Join(front);
      LeadBefore(log, e);
      CxJoin(h, c, front);
      PushCases(log, e);
      var a := CxOnAll(h, c, front);
      if e.Data? && EndsWith(log, e.kind) {
        var l0, x := log[..|log| - 1], log[|log| - 1].bytes;
        assert log == l0 + [Data(e.kind, x)];
        assert Join(trace)[..|Join(trace)| - 1] == l0;
        AlikeJoined(a.r, CxOnAll(h, c, l0).r, l0, e.kind, x, e.bytes);
      } else {
        assert Join(trace)[..|Join(trace)| - 1] == log;
        if e.MessageComplete? {
          ServeAlike(h, a, CxOnAll(h, c, log), log, e.snap);
          SelfAlike(CxOnAll(h, c, trace), Join(trace));
        } else {
          AlikeNew(a.r, CxOnAll(h, c, log).r, log, e);
        }
      }
    }
  }

  lemma SelfAlike(c: Cx, log: Log)
    ensures CxAlike(c, c, log)
  {
  }

  lemma BetweenRequests(c: Cx, d: Cx, log: Log)
    requires CxAlike(c, d, log)
    ensures c.state == d.state && c.served == d.served && c.out == d.out
    ensures AtStart(log) ==> c == d
  {
  }

  /** In a grammatical log URLs come first. */
  lemma GrammarLeads(log: Log)
    requires Grammatical(log)
    ensures UrlsLead(log)
  {
    forall i | 0 <= i < |log| && IsUrl(log[i])
      ensures i == 0 || log[i - 1].MessageComplete? || IsUrl(log[i - 1])
    {
      assert !PhaseOf(log[..i + 1]).Wrong? && log[..i + 1][..i] == log[..i];
      BeforeUrl(log[..i]);
    }
  }

  lemma BeforeUrl(log: Log)
    requires PhaseOf(log).Between? || PhaseOf(log).InUrl?
    ensures log == [] || log[|log| - 1].MessageComplete? || IsUrl(log[|log| - 1])
  {
  }

  /** Whatever bytes arrive: however their callbacks are cut, the connection comes to the same state, has
      served the same requests and has sent the same bytes. */
  lemma SameReplies(h: Handler, c: Cx, resets: Policy, data: string, one: seq<Event>, other: seq<Event>)
    requires Join(one) == Join(other) == Run(resets, Machine(Init(Request), []), data).m.log
    ensures var a, b := CxOnAll(h, c, one), CxOnAll(h, c, other);
      a.state == b.state && a.served == b.served && a.out == b.out && Erased(a.r) == Erased(b.r)
  {
    hide Run, Join, CxOnAll, Alike, UrlsLead;
    EveryRun(Request, resets, data);
    GrammarLeads(Join(one));
    CxJoin(h, c, one);
    CxJoin(h, c, other);
    AlikeErased(CxOnAll(h, c, one).r, CxOnAll(h, c, Join(one)).r, Join(one));
    AlikeErased(CxOnAll(h, c, other).r, CxOnAll(h, c, Join(other)).r, Join(other));
  }

  // ---------- One request ----------

  /** Before its completion a message only concerns the parser. */
  lemma {:induction false} BeforeCompletion(h: Handler, c: Cx, es: seq<Event>)
    requires NoCompletion(es)
    ensures CxOnAll(h, c, es) == c.(r := OnAll(c.r, es))
    decreases |es|
  {
    hide On;
    if es != [] {
      BeforeCompletion(h, c, es[..|es| - 1]);
    }
  }

  function SnapOf(q: OutgoingRequest): Snapshot {
    Snapshot(q.verb, 0, 1, 1)
  }

  function EventsOf(q: OutgoingRequest): seq<Event>
    requires LegalHeaders(RequestHeaders(q))
  {
    RequestEvents(q.verb, q.url, RequestHeaders(q), q.body, 0)
  }

  /** What the handler should see of a request. */
  function Expected(q: OutgoingRequest): Received {
    Arrived(q.verb, q.url, RequestHeaders(q), q.body)
  }

  /** A request that arrives at a fresh connection is served, and the connection is fresh again. */
  lemma OneServed(h: Handler, c: Cx, q: OutgoingRequest)
    requires Sendable(q) && c.r == Fresh(Request, [])
    ensures LegalHeaders(RequestHeaders(q))
    ensures CxOnAll(h, c, EventsOf(q)) == Serve(h, c.(r := Expected(q)), SnapOf(q))
  {
    hide Sendable, RequestHeaders, LegalHeaders, Serve, On, LegalUrl, PlainHeaders, Announces, RequestHead, WithinLimits, Arrived,
         FramingFor, HeaderEvents, Finish, TooLarge, PutAll;
    SendableIsLegal(q);
    var hs := RequestHeaders(q);
    RequestOn(q.url, hs, FramingFor(hs), q.body, SnapOf(q));
    var front := FrontOf([Data(OnUrl, q.url)], hs, FramingFor(hs), q.body, SnapOf(q));
    var es := EventsOf(q);
    assert es == [Data(OnUrl, q.url)] + MessageEvents(hs, FramingFor(hs), q.body, SnapOf(q));
    assert es[..|es| - 1] == front && es[|es| - 1] == MessageComplete(SnapOf(q));
    BeforeCompletion(h, c, front);
    OnMessage(OnAll(c.r, front), SnapOf(q));
  }

  lemma EventsEnd(q: OutgoingRequest)
    requires LegalHeaders(RequestHeaders(q))
    ensures EventsOf(q) != [] && EventsOf(q)[|EventsOf(q)| - 1] == MessageComplete(SnapOf(q))
  {
    hide RequestHeaders, LegalHeaders, FramingFor, HeaderEvents;
  }

  // ---------- Many requests ----------

  predicate AllSendable(qs: seq<OutgoingRequest>) {
    forall i | 0 <= i < |qs| :: Sendable(qs[i])
  }

  function TextOf(qs: seq<OutgoingRequest>): string {
    if qs == [] then "" else RequestText(qs[0]) + TextOf(qs[1..])
  }

  predicate AllLegal(qs: seq<OutgoingRequest>) {
    forall i | 0 <= i < |qs| :: LegalHeaders(RequestHeaders(qs[i]))
  }

  function LogOf(qs: seq<OutgoingRequest>): Log
    requires AllLegal(qs)
    decreases |qs|
  {
    if qs == [] then [] else EventsOf(qs[0]) + LogOf(qs[1..])
  }

  /** Serving requests one by one, each as it would have arrived alone. */
  function ServeAll(h: Handler, c: Cx, qs: seq<OutgoingRequest>): Cx
    decreases |qs|
  {
    if qs == [] then c else ServeAll(h, Serve(h, c.(r := Expected(qs[0])), SnapOf(qs[0])), qs[1..])
  }

  lemma {:induction false} AllServed(h: Handler, c: Cx, qs: seq<OutgoingRequest>)
    requires AllSendable(qs) && c.r == Fresh(Request, []) && AllLegal(qs)
    ensures CxOnAll(h, c, LogOf(qs)) == ServeAll(h, c, qs)
    decreases |qs|
  {
    hide Sendable, RequestHeaders, LegalHeaders, Expected, EventsOf, CxOn;
    if qs != [] {
      OneServed(h, c, qs[0]);
      var c1 := Serve(h, c.(r := Expected(qs[0])), SnapOf(qs[0]));
      AllServed(h, c1, qs[1..]);
      CxOnAllConcat(h, c, EventsOf(qs[0]), LogOf(qs[1..]));
    }
  }

  function ExpectedMessages(qs: seq<OutgoingRequest>): seq<Receiver.Message> {
    if qs == [] then [] else [Expected(qs[0]).msg] + ExpectedMessages(qs[1..])
  }

  lemma ServedOne(h: Handler, c: Cx, q: OutgoingRequest)
    ensures var d := Serve(h, c.(r := Expected(q)), SnapOf(q));
      d.r == Fresh(Request, []) && d.served == c.served + [Expected(q).msg]
  {
    hide ReplyText, RequestHeaders, QueryOf, Answer, StateAfter;
  }

  lemma Adjoined<T>(a: seq<T>, x: T, b: seq<T>)
    ensures a + [x] + b == a + ([x] + b)
  {
  }

  /** The handler has been called once for each request, in order, and has seen each request as it was
      sent; the parser is as fresh as before. */
  lemma {:induction false} ServedInOrder(h: Handler, c: Cx, qs: seq<OutgoingRequest>)
    requires c.r == Fresh(Request, [])
    ensures var d := ServeAll(h, c, qs); d.r == Fresh(Request, []) && d.served == c.served + ExpectedMessages(qs)
    decreases |qs|
  {
    hide Serve, Expected, SnapOf, Fresh;
    if qs == [] {
      assert c.served + [] == c.served;
    } else {
      ServedOne(h, c, qs[0]);
      ServedInOrder(h, Serve(h, c.(r := Expected(qs[0])), SnapOf(qs[0])), qs[1..]);
      Adjoined(c.served, Expected(qs[0]).msg, ExpectedMessages(qs[1..]));
    }
  }

  predicate NoneClose(qs: seq<OutgoingRequest>) {
    forall i | 0 <= i < |qs| :: Get(RequestHeaders(qs[i]), CONNECTION_NAME) != CLOSE_VALUE
  }

  /** Without a request to close, the connection stays ready for data. */
  lemma {:induction false} StaysReady(h: Handler, c: Cx, qs: seq<OutgoingRequest>)
    requires NoneClose(qs)
    ensures ServeAll(h, c, qs).state == c.state
    decreases |qs|
  {
    hide ReplyText, RequestHeaders, QueryOf, Answer, Get;
    if qs != [] {
      StaysReady(h, Serve(h, c.(r := Expected(qs[0])), SnapOf(qs[0])), qs[1..]);
    }
  }

  /** The completion callback of a connection whose sends succeed always resets the parser. */
  function Always(): Policy {
    (log: Log) => true
  }

  lemma AlwaysResets(log: Log)
    ensures Always()(log)
  {
  }

  lemma EventsAre(q: OutgoingRequest)
    requires LegalHeaders(RequestHeaders(q))
    ensures EventsOf(q) == RequestEvents(q.verb, q.url, RequestHeaders(q), q.body, 0)
  {
  }

  lemma {:induction false} PipelineRuns(m: Machine, qs: seq<OutgoingRequest>) returns (m': Machine)
    requires AllSendable(qs) && m.f == Init(Request) && !EndsWith(m.log, OnUrl)
    ensures AllLegal(qs) && Reads(Always(), m, TextOf(qs), m') && m' == Machine(Init(Request), m.log + LogOf(qs))
    decreases |qs|
  {
    hide Sendable, RequestHeaders, LegalHeaders, RequestText, Reads, Run, RequestEvents, Always, Arrived, OnAll, Join;
    if qs == [] {
      m' := m;
      ReadsNothing(Always(), m);
      assert m.log + [] == m.log;
    } else {
      var m1 := RequestRoundTrip(Always(), qs[0], 0, m);
      EventsEnd(qs[0]);
      AlwaysResets(m1.log);
      EventsAre(qs[0]);
      assert m1.log[|m1.log| - 1] == MessageComplete(SnapOf(qs[0]));
      m' := PipelineRuns(m1, qs[1..]);
      ReadsConcat(Always(), m, RequestText(qs[0]), m1, TextOf(qs[1..]), m');
      assert m.log + EventsOf(qs[0]) + LogOf(qs[1..]) == m.log + LogOf(qs);
    }
  }

  lemma {:induction false} LogStarts(qs: seq<OutgoingRequest>)
    requires AllLegal(qs)
    ensures AtStart(LogOf(qs))
    decreases |qs|
  {
    hide RequestHeaders, LegalHeaders, EventsOf;
    if qs != [] {
      EventsEnd(qs[0]);
      LogStarts(qs[1..]);
    }
  }

  /** Pipelining.  For every list of sendable requests, printed one after the other and cut anyhow, the
      calls of the parser read everything and leave it fresh; and however the callbacks are cut, the
      handler is called once per request, in order, each time seeing exactly that request. */
  lemma PipelinedRequests(h: Handler, c: Cx, qs: seq<OutgoingRequest>, pieces: seq<string>)
    requires AllSendable(qs) && NonEmpty(pieces) && Concat(pieces) == TextOf(qs) && c.r == Fresh(Request, [])
    ensures AllLegal(qs)
    ensures Calls(Always(), Machine(Init(Request), []), pieces) == Ran(Machine(Init(Request), LogOf(qs)), |TextOf(qs)|, Going)
    ensures forall trace: seq<Event> :: Join(trace) == LogOf(qs) ==>
      && CxOnAll(h, c, trace) == ServeAll(h, c, qs)
      && CxOnAll(h, c, trace).served == c.served + ExpectedMessages(qs)
      && CxOnAll(h, c, trace).r == Fresh(Request, [])
  {
    hide AllSendable, AllLegal, Run, Calls, CxOnAll, ServeAll, Join, LogOf, TextOf, Concat, ExpectedMessages, CxAlike, UrlsLead;
    var m0 := Machine(Init(Request), []);
    var m' := PipelineRuns(m0, qs);
    assert [] + LogOf(qs) == LogOf(qs);
    CallsAreOneRun(Always(), m0, pieces);
    AllServed(h, c, qs);
    ServedInOrder(h, c, qs);
    EveryRun(Request, Always(), TextOf(qs));
    GrammarLeads(LogOf(qs));
    LogStarts(qs);
    forall trace: seq<Event> | Join(trace) == LogOf(qs)
      ensures CxOnAll(h, c, trace) == ServeAll(h, c, qs)
    {
      CxJoin(h, c, trace);
      BetweenRequests(CxOnAll(h, c, trace), CxOnAll(h, c, LogOf(qs)), LogOf(qs));
    }
  }
}
