/** The whole way: a connection object that receives pipelined requests, cut anyhow by the network. */
module ServedPipeline {
  import opened HttpTypes
  import opened Dispatch
  import opened EventLog
  import opened Machine
  import opened Invariant
  import opened Grammar
  import opened Execution
  import opened Fragmentation
  import opened MessageRuns
  import opened Headers
  import opened QueryString
  import opened Receiver
  import opened RoundTrips
  import opened Printing
  import opened ReplyObject
  import opened Pipelining
  import opened ConnectionObject

  // ---- logs only grow

  function PushAll(log: Log, es: seq<Event>): Log {
    if es == [] then log else Push(PushAll(log, es[..|es| - 1]), es[|es| - 1])
  }

  lemma {:induction false} PushAllConcat(log: Log, xs: seq<Event>, ys: seq<Event>)
    ensures PushAll(log, xs + ys) == PushAll(PushAll(log, xs), ys)
  {
    hide Push;
    if ys == [] {
      assert xs + ys == xs;
    } else {
      assert (xs + ys)[..|xs + ys| - 1] == xs + ys[..|ys| - 1];
      PushAllConcat(log, xs, ys[..|ys| - 1]);
    }
  }

  lemma {:induction false} JoinOn(trace: seq<Event>, es: seq<Event>)
    ensures Join(trace + es) == PushAll(Join(trace), es)
  {
    hide Push;
    if es == [] {
      assert trace + es == trace;
    } else {
      assert (trace + es)[..|trace + es| - 1] == trace + es[..|es| - 1];
      JoinOn(trace, es[..|es| - 1]);
    }
  }

  lemma PushOne(log: Log, e: Event)
    ensures PushAll(log, [e]) == Push(log, e)
  {
    hide Push;
    assert PushAll(log, []) == log && [e][..0] == [];
  }

  lemma PushNone(log: Log)
    ensures PushAll(log, []) == log
  {
  }

  lemma {:induction false} DispatchGrows(resets: Policy, m: Machine, ch: char) returns (es: seq<Event>)
    ensures Dispatched(resets, m, ch).0.log == PushAll(m.log, es)
    decreases Rank(m.f.state)
  {
    hide Push, Switch;
    var a := Switch(m.f, ch);
    es := [];
    PushNone(m.log);
    if a.exit.Error? || a.exit.Abort? {
      return;
    }
    var d := DataOf(m.f.state, a, ch);
    if d.Some? {
      es := [d.value];
      PushOne(m.log, d.value);
    }
    var e := if a.notice.NotifyMessageComplete? then MessageComplete(SnapshotOf(a.f)) else HeadersComplete(FramingOf(a.f));
    if a.notice.NotifyMessageComplete? || (a.exit.Reexecute? && a.notice.NotifyHeadersComplete?) {
      PushOne(PushAll(m.log, es), e);
      PushAllConcat(m.log, es, [e]);
      es := es + [e];
    }
    ShapeOf(m.f, ch);
    if a.exit.Reexecute? {
      var more := DispatchGrows(resets, Machine(a.f, PushAll(m.log, es)), ch);
      PushAllConcat(m.log, es, more);
      es := es + more;
    }
  }

  lemma {:induction false} RunGrows(resets: Policy, m: Machine, data: string) returns (es: seq<Event>)
    ensures Run(resets, m, data).m.log == PushAll(m.log, es)
    decreases |data|
  {
    hide Push, Dispatched, PushAll;
    PushNone(m.log);
    es := [];
    if data != "" {
      var (m', v) := Step(resets, m, data[0]);
      es := StepGrows(resets, m, data[0]);
      if v.Going? {
        var more := RunGrows(resets, m', data[1..]);
        PushAllConcat(m.log, es, more);
        es := es + more;
      }
    }
  }

  lemma StepGrows(resets: Policy, m: Machine, ch: char) returns (es: seq<Event>)
    ensures Step(resets, m, ch).0.log == PushAll(m.log, es)
  {
    hide Push, Dispatched, PushAll;
    PushNone(m.log);
    if !ParsingHeader(m.f.state) {
      es := DispatchGrows(resets, m, ch);
    } else if m.f.nread + 1 > HTTP_MAX_HEADER_SIZE {
      es := [];
    } else {
      es := DispatchGrows(resets, m.(f := m.f.(nread := m.f.nread + 1)), ch);
    }
  }

  // ---- what has arrived of a log

  /** `log` is a beginning of `whole`, whose last data callback may still lack bytes. */
  predicate Begins(log: Log, whole: Log) {
    && |log| <= |whole|
    && (forall i | 0 <= i < |log| - 1 :: log[i] == whole[i])
    && (log != [] ==> var i := |log| - 1; log[i] == whole[i] || (log[i].Data? && whole[i].Data?))
  }

  lemma {:induction false} PushedBegins(log: Log, es: seq<Event>)
    ensures Begins(log, PushAll(log, es))
    decreases |es|
  {
    hide Push;
    if es != [] {
      var front := PushAll(log, es[..|es| - 1]);
      PushedBegins(log, es[..|es| - 1]);
      PushCases(front, es[|es| - 1]);
    }
  }

  lemma BeginsAll(log: Log, whole: Log)
    requires Begins(log, whole)
    ensures |log| <= |whole| && (|log| == |whole| && AtStart(whole) ==> log == whole)
  {
  }

  /** Before the first message has arrived whole, it has not completed. */
  lemma BeginsBefore(log: Log, es: Log, more: Log)
    requires Begins(log, es + more) && |log| < |es| && NoCompletion(es[..|es| - 1])
    ensures NoCompletion(log)
  {
    forall i | 0 <= i < |log| ensures !log[i].MessageComplete? {
      assert (es + more)[i] == es[..|es| - 1][i];
    }
  }

  /** After that, the rest begins the rest. */
  lemma BeginsBehind(log: Log, es: Log, more: Log) returns (rest: Log)
    requires Begins(log, es + more) && |es| <= |log| && es != [] && es[|es| - 1].MessageComplete?
    ensures log == es + rest && Begins(rest, more)
  {
    rest := log[|es|..];
    forall i | 0 <= i < |es| ensures log[i] == es[i] {
      assert (es + more)[i] == es[i];
    }
    forall i | 0 <= i < |rest| ensures rest[i] == log[|es| + i] && more[i] == (es + more)[|es| + i] {
    }
  }

  /** As many requests have been served as have arrived whole. */
  lemma {:induction false} PartServed(h: Handler, c: Cx, qs: seq<OutgoingRequest>, log: Log) returns (j: nat)
    requires AllSendable(qs) && AllLegal(qs) && c.r == Fresh(Request, []) && Begins(log, LogOf(qs))
    ensures j <= |qs| && (|log| == |LogOf(qs)| ==> j == |qs|)
    ensures var d, e := CxOnAll(h, c, log), ServeAll(h, c, qs[..j]);
      d.state == e.state && d.served == e.served && d.out == e.out
    decreases |qs|
  {
    hide Sendable, RequestHeaders, LegalHeaders, Serve, Expected, EventsOf, CxOn, Begins;
    if qs == [] {
      BeginsAll(log, []);
      j := 0;
    } else {
      var es := EventsOf(qs[0]);
      EventsFront(qs[0]);
      if |log| < |es| {
        j := 0;
        BeginsBefore(log, es, LogOf(qs[1..]));
        BeforeCompletion(h, c, log);
      } else {
        var rest := BeginsBehind(log, es, LogOf(qs[1..]));
        OneServed(h, c, qs[0]);
        var c1 := Serve(h, c.(r := Expected(qs[0])), SnapOf(qs[0]));
        FreshAgain(h, c.(r := Expected(qs[0])), SnapOf(qs[0]));
        j := PartServed(h, c1, qs[1..], rest);
        CxOnAllConcat(h, c, es, rest);
        j := j + 1;
        assert qs[..j][0] == qs[0] && qs[..j][1..] == qs[1..][..j - 1];
      }
    }
  }

  lemma FreshAgain(h: Handler, c: Cx, snap: Snapshot)
    ensures Serve(h, c, snap).r == Fresh(Request, [])
  {
    hide ReplyText, Answer, StateAfter;
  }

  lemma EventsFront(q: OutgoingRequest)
    requires LegalHeaders(RequestHeaders(q))
    ensures var es := EventsOf(q);
      es != [] && es[|es| - 1].MessageComplete? && NoCompletion(es[..|es| - 1])
  {
    hide RequestHeaders, LegalHeaders, FramingFor, HeaderEvents, NoCompletion, UrlsLead;
    var hs := RequestHeaders(q);
    var front := FrontOf([Data(OnUrl, q.url)], hs, FramingFor(hs), q.body, SnapOf(q));
    var es := EventsOf(q);
    assert es == [Data(OnUrl, q.url)] + MessageEvents(hs, FramingFor(hs), q.body, SnapOf(q));
    assert es[..|es| - 1] == front;
  }

  /** Once a request has asked to close, the connection should close. */
  lemma {:induction false} ShouldClose(h: Handler, c: Cx, qs: seq<OutgoingRequest>)
    requires c.state.ST_SHOULD_CLOSE? || (c.state.ST_READY_FOR_DATA? && !NoneClose(qs))
    ensures ServeAll(h, c, qs).state.ST_SHOULD_CLOSE?
    decreases |qs|
  {
    hide ReplyText, RequestHeaders, QueryOf, Answer, Get;
    if qs != [] {
      var c1 := Serve(h, c.(r := Expected(qs[0])), SnapOf(qs[0]));
      if c.state.ST_READY_FOR_DATA? && !AsksToClose(Expected(qs[0]).msg) {
        var i :| 0 <= i < |qs| && Get(RequestHeaders(qs[i]), CONNECTION_NAME) == CLOSE_VALUE;
        assert qs[i] == qs[1..][i - 1];
      }
      ShouldClose(h, c1, qs[1..]);
    }
  }

  // ---- pipelines

  /** Wherever the pipeline has been cut so far, the requests that have arrived whole have been served and
      answered; and when everything has arrived, all of them. */
  lemma ServedMeanwhile(h: Handler, c: Cx, qs: seq<OutgoingRequest>, received: seq<string>, k: nat, trace: seq<Event>)
    returns (j: nat)
    requires AllSendable(qs) && c.r == Fresh(Request, [])
    requires NonEmpty(received) && Concat(received) == TextOf(qs) && k <= |received|
    requires var r := Run(Always(), Machine(Init(Request), []), Concat(received[..k])); r.verdict.Going? ==> Join(trace) == r.m.log
    ensures j <= |qs| && (k == |received| ==> j == |qs|)
    ensures var d, e := CxOnAll(h, c, trace), ServeAll(h, c, qs[..j]);
      d.state == e.state && d.served == e.served && d.out == e.out
    ensures Run(Always(), Machine(Init(Request), []), Concat(received[..k])).verdict.Going?
  {
    hide AllSendable, AllLegal, LogOf, TextOf, Run, CxOnAll, ServeAll, Join, Push, PushAll, CxAlike, UrlsLead, Begins;
    var m0 := Machine(Init(Request), []);
    var front, rest := Concat(received[..k]), Concat(received[k..]);
    ConcatAppend(received[..k], received[k..]);
    assert received[..k] + received[k..] == received;
    var m1 := PipelineRuns(m0, qs);
    assert [] + LogOf(qs) == LogOf(qs);
    assert Run(Always(), m0, front + rest) == Ran(m1, |front + rest|, Going);
    RunConcat(Always(), m0, front, rest);
    var r := Run(Always(), m0, front);
    var es := RunGrows(Always(), r.m, rest);
    PushedBegins(Join(trace), es);
    j := PartServed(h, c, qs, Join(trace));
    if k == |received| {
      assert received[..k] == received;
    }
    EveryRun(Request, Always(), front);
    GrammarLeads(Join(trace));
    CxJoin(h, c, trace);
    BetweenRequests(CxOnAll(h, c, trace), CxOnAll(h, c, Join(trace)), Join(trace));
  }

  /** Without a request to close, the connection is ready for more wherever the pipeline is cut. */
  lemma ReadyMeanwhile(h: Handler, c: Cx, qs: seq<OutgoingRequest>, received: seq<string>, k: nat, trace: seq<Event>)
    requires AllSendable(qs) && NoneClose(qs) && c.r == Fresh(Request, []) && c.state.ST_READY_FOR_DATA?
    requires NonEmpty(received) && Concat(received) == TextOf(qs) && k <= |received|
    requires var r := Run(Always(), Machine(Init(Request), []), Concat(received[..k])); r.verdict.Going? ==> Join(trace) == r.m.log
    ensures CxOnAll(h, c, trace).state.ST_READY_FOR_DATA?
  {
    hide AllSendable, TextOf, Run, CxOnAll, ServeAll, Join;
    var j := ServedMeanwhile(h, c, qs, received, k, trace);
    StaysReady(h, c, qs[..j]);
  }

  lemma AlwaysSent(trace: seq<Event>, from: nat)
    ensures AllSent(Always(), trace, from)
  {
  }

  function NewConnection(): Cx {
    Cx(Fresh(Request, []), 1, 1, ST_READY_FOR_DATA, [], "")
  }

  /** What is known when the connection stops reading after `k` of the pieces. */
  lemma WhenItStops(h: Handler, qs: seq<OutgoingRequest>, received: seq<string>, k: nat, trace: seq<Event>, m: Machine)
    returns (j: nat)
    requires AllSendable(qs) && NonEmpty(received) && Concat(received) == TextOf(qs) && k <= |received|
    requires var r := Run(Always(), Machine(Init(Request), []), Concat(received[..k])); r.verdict.Going? ==> m == r.m
    requires m.log == Join(trace)
    requires k < |received| ==> !CxOnAll(h, NewConnection(), trace).state.ST_READY_FOR_DATA?
    ensures j <= |qs| && (j < |qs| ==> !NoneClose(qs[..j]))
    ensures var d, e := CxOnAll(h, NewConnection(), trace), ServeAll(h, NewConnection(), qs[..j]);
      d.served == e.served && d.out == e.out && e.served == ExpectedMessages(qs[..j])
      && d.state == (if NoneClose(qs[..j]) then ST_READY_FOR_DATA else ST_SHOULD_CLOSE)
    ensures NoneClose(qs) ==> j == |qs| && m.f == Init(Request)
  {
    hide AllSendable, NoneClose, AllLegal, LogOf, TextOf, Run, CxOnAll, ServeAll, Join, Always, ExpectedMessages;
    j := ServedMeanwhile(h, NewConnection(), qs, received, k, trace);
    ServedInOrder(h, NewConnection(), qs[..j]);
    assert [] + ExpectedMessages(qs[..j]) == ExpectedMessages(qs[..j]);
    if NoneClose(qs[..j]) {
      StaysReady(h, NewConnection(), qs[..j]);
      assert received[..k] == received;
      var m1 := PipelineRuns(Machine(Init(Request), []), qs);
    } else {
      ShouldClose(h, NewConnection(), qs[..j]);
      NoneCloseYet(qs, j);
    }
  }

  lemma NoneCloseYet(qs: seq<OutgoingRequest>, j: nat)
    requires j <= |qs|
    ensures NoneClose(qs) ==> NoneClose(qs[..j])
  {
  }

  /** A connection from its first byte to its last.  For every list of sendable requests, sent back to back
      and cut anyhow, over a wire that takes everything: the handler is given the first `j` of them, in
      order, and the client receives exactly the replies to these, in order.  These are all of them unless
      one of the `j` asks to close: then the connection reads no more after the piece that completed it. */
  method ServePipeline(h: Handler, qs: seq<OutgoingRequest>, received: seq<string>) returns (cx: Connection, ghost j: nat)
    requires KeepsMaps(h) && AllSendable(qs)
    requires NonEmpty(received) && Concat(received) == TextOf(qs)
    ensures j <= |qs| && (j < |qs| ==> !NoneClose(qs[..j]))
    ensures cx.served == ExpectedMessages(qs[..j])
    ensures cx.wire.out == ServeAll(h, NewConnection(), qs[..j]).out
    ensures cx.state == if NoneClose(qs[..j]) then ST_IO_ERROR else ST_SHOULD_CLOSE
    ensures NoneClose(qs) ==> j == |qs| && cx.parser.http.Fields() == Init(Request)
  {
    hide AllSendable, NoneClose, TextOf, Run, CxOnAll, ServeAll, Join, AllSent, Always, ExpectedMessages, Concat, NonEmpty, Inv;
    cx := new Connection(h, Always());
    NoLog();
    assert cx.parser.http.Abstract() == Machine(Init(Request), []);
    var k := cx.Exec(received);
    ghost var trace := cx.parser.http.trace;
    AlwaysSent(trace, 0);
    assert trace[0..] == trace;
    j := WhenItStops(h, qs, received, k, trace, cx.parser.http.Abstract());
  }

  lemma NoLog()
    ensures Join([]) == []
  {
  }
}
