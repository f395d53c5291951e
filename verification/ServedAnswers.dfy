/** One request on the wire to a connection object, and the bytes that come back. */
module ServedAnswers {
  import opened HttpTypes
  import opened EventLog
  import opened Machine
  import opened Invariant
  import opened Grammar
  import opened Execution
  import opened Fragmentation
  import opened MessageRuns
  import opened Headers
  import opened QueryString
  import opened Receiver
  import opened RoundTrips
  import opened Pipelining
  import opened ConnectionObject
  import opened ServedPipeline
  import opened Answers

  /** The callbacks of a legal request in the form that the answers are stated for. */
  function LogOfOne(v: Method, url: string, hs: seq<Header>, body: string): Log
    requires LegalHeaders(hs)
  {
    [Data(OnUrl, url)] + MessageEvents(hs, FramingFor(hs), body, Snapshot(v, 0, 1, 1))
  }

  lemma LogIs(v: Method, url: string, hs: seq<Header>, body: string)
    requires LegalHeaders(hs)
    ensures LogOfOne(v, url, hs, body) == [Data(OnUrl, url)] + MessageEvents(hs, FramingFor(hs), body, Snapshot(v, 0, 1, 1))
  {
  }

  lemma OneLog(v: Method, url: string, hs: seq<Header>, body: string)
    requires LegalHeaders(hs)
    ensures LogOfOne(v, url, hs, body) == RequestEvents(v, url, hs, body, 0)
  {
    hide HeaderEvents, BodyEvents, LegalHeaders, FramingFor;
  }

  /** Wherever the request is cut, either nothing has been completed or everything has. */
  lemma AllOrNothing(v: Method, url: string, hs: seq<Header>, body: string, received: seq<string>, k: nat, trace: seq<Event>, m: Machine)
    requires LegalRequest(v, url, hs, body) && NonEmpty(received) && Concat(received) == RequestHead(v, url, hs) + body && k <= |received|
    requires var r := Run(Always(), Machine(Init(Request), []), Concat(received[..k])); r.verdict.Going? ==> m == r.m
    requires m.log == Join(trace)
    ensures Join(trace) == LogOfOne(v, url, hs, body) || (NoCompletion(Join(trace)) && UrlsLead(Join(trace)) && k < |received|)
  {
    hide LegalRequest, Run, Join, Push, PushAll, Begins, NoCompletion, LogOfOne, RequestHead, Always, UrlsLead;
    LegalIs(v, url, hs, body);
    var m0 := Machine(Init(Request), []);
    var front, rest := Concat(received[..k]), Concat(received[k..]);
    ConcatAppend(received[..k], received[k..]);
    assert received[..k] + received[k..] == received;
    var m1 := RequestRead(Always(), m0, v, url, hs, body);
    OneLog(v, url, hs, body);
    var log := LogOfOne(v, url, hs, body);
    assert [] + log == log;
    assert Run(Always(), m0, front + rest) == Ran(m1, |front + rest|, Going);
    RunConcat(Always(), m0, front, rest);
    var r := Run(Always(), m0, front);
    if k == |received| {
      assert received[..k] == received;
    } else {
      EveryRun(Request, Always(), front);
      GrammarLeads(Join(trace));
      var es := RunGrows(Always(), r.m, rest);
      PushedBegins(Join(trace), es);
      Unfinished(v, url, hs, body, Join(trace));
    }
  }

  /** A beginning of the callbacks is all of them or has no completion. */
  lemma Unfinished(v: Method, url: string, hs: seq<Header>, body: string, l: Log)
    requires LegalHeaders(hs) && Begins(l, LogOfOne(v, url, hs, body))
    ensures l == LogOfOne(v, url, hs, body) || NoCompletion(l)
  {
    hide LegalHeaders, NoCompletion, LogOfOne, Begins;
    var log := LogOfOne(v, url, hs, body);
    BeginsAll(l, log);
    LogEnds(v, url, hs, body);
    if |l| < |log| {
      assert log + [] == log;
      BeginsBefore(l, log, []);
    }
  }

  lemma LegalIs(v: Method, url: string, hs: seq<Header>, body: string)
    requires LegalRequest(v, url, hs, body)
    ensures LegalHeaders(hs)
  {
  }

  lemma LogEnds(v: Method, url: string, hs: seq<Header>, body: string)
    requires LegalHeaders(hs)
    ensures var log := LogOfOne(v, url, hs, body);
      log != [] && log[|log| - 1].MessageComplete? && NoCompletion(log[..|log| - 1]) && AtStart(log)
  {
    hide LegalHeaders, FramingFor, HeaderEvents, NoCompletion, UrlsLead;
    var snap := Snapshot(v, 0, 1, 1);
    var front := FrontOf([Data(OnUrl, url)], hs, FramingFor(hs), body, snap);
    var log := LogOfOne(v, url, hs, body);
    assert log[..|log| - 1] == front && log[|log| - 1] == MessageComplete(snap);
  }

  /** Before its completion a request leaves the connection ready. */
  lemma StillReady(h: Handler, trace: seq<Event>)
    requires NoCompletion(Join(trace)) && UrlsLead(Join(trace))
    ensures CxOnAll(h, NewConnection(), trace).state.ST_READY_FOR_DATA?
  {
    hide Join, CxOnAll, Alike, UrlsLead;
    CxJoin(h, NewConnection(), trace);
    BeforeCompletion(h, NewConnection(), Join(trace));
  }

  /** What the object shows of the state `d`; a read that fails afterwards is an I/O error. */
  ghost predicate Ends(cx: Connection, d: Cx)
    reads cx, cx.wire
  {
    && cx.served == d.served && cx.wire.out == d.out
    && cx.state == if d.state.ST_READY_FOR_DATA? then ST_IO_ERROR else d.state
  }

  lemma NoJoin()
    ensures Join([]) == []
  {
  }

  /** A connection object that is sent one legal request in any pieces, over a wire that takes everything: what the
      handler sees and what the client receives, by the numbers of the limits. */
  method ServeRequest(h: Handler, v: Method, url: string, hs: seq<Header>, body: string, received: seq<string>) returns (cx: Connection)
    requires KeepsMaps(h) && LegalRequest(v, url, hs, body)
    requires NonEmpty(received) && Concat(received) == RequestHead(v, url, hs) + body
    ensures var headers, c, snap := PutAll([], hs), Cx(Fresh(Request, []), 1, 1, ST_READY_FOR_DATA, [], ""), Snapshot(v, 0, 1, 1);
      && (AnnouncesTooMuch(headers) ==> Ends(cx, Refused(c, 413, "Request entity too large", headers, snap)))
      && (!AnnouncesTooMuch(headers) && AwaitsContinue(headers) ==> Ends(cx, Refused(c, 400, "Bad request", headers, snap)))
      && (NoRefusedLine(hs) && |url| > 4096 ==> Ends(cx, Refused(c, 414, "Request URI too long", headers, snap)))
      && (NoRefusedLine(hs) && |url| <= 4096 ==>
            Ends(cx, Accepted(h, c, Receiver.Message(headers, body, Shown(v), url, QueryOf(map[], url), 200), snap)))
  {
    hide LegalRequest, Run, CxOnAll, Join, AllSent, Always, Concat, NonEmpty, Inv, RequestHead, NoCompletion, UrlsLead, LogOfOne,
         AnnouncesTooMuch, AwaitsContinue, NoRefusedLine, Refused, Accepted, PutAll, QueryOf, CxAlike, PhaseOf;
    LegalIs(v, url, hs, body);
    cx := new Connection(h, Always());
    NoJoin();
    assert cx.parser.http.Abstract() == Machine(Init(Request), []);
    var k := cx.Exec(received);
    ghost var trace := cx.parser.http.trace;
    AlwaysSent(trace, 0);
    assert trace[0..] == trace;
    AllOrNothing(v, url, hs, body, received, k, trace, cx.parser.http.Abstract());
    if Join(trace) != LogOfOne(v, url, hs, body) {
      StillReady(h, trace);
    }
    assert Join(trace) == [Data(OnUrl, url)] + MessageEvents(hs, FramingFor(hs), body, Snapshot(v, 0, 1, 1)) by {
      LogIs(v, url, hs, body);
    }
    EveryAnswer(h, NewConnection(), url, hs, FramingFor(hs), body, Snapshot(v, 0, 1, 1), trace);
  }
}
