/** http::Connection: the loop that reads, answers complete requests and sends the replies. */
module ConnectionObject {
  import opened HttpTypes
  import opened EventLog
  import opened Machine
  import opened Execution
  import opened Fragmentation
  import opened MessageRuns
  import opened Headers
  import opened BodyStore
  import opened RequestObject
  import opened ReplyObject
  import opened ParserObject
  import opened Receiver
  import opened Printing
  import opened Strategy
  import opened Pipelining

  /** A handler's headers are a map, so they stay sorted. */
  ghost predicate KeepsMaps(h: Handler) {
    forall m, p: OutgoingReply :: Sorted(p.headers) ==> Sorted(h(m, p).headers)
  }

  /** Two texts sent one after the other are sent like the whole. */
  lemma TakenBoth(a: string, b: string, room: nat)
    ensures |Taken(a, room)| <= room
    ensures Taken(a, room) + (if |a| <= room then Taken(b, room - |a|) else "") == Taken(a + b, room)
  {
  }

  /** Every reply to a request that `trace` completes from `from` on reaches the client. */
  predicate AllSent(resets: Policy, trace: seq<Event>, from: nat) {
    forall i | from <= i < |trace| && trace[i].MessageComplete? :: resets(Join(trace[..i + 1]))
  }

  lemma SentMore(resets: Policy, trace: seq<Event>, from: nat, i: nat)
    requires from <= i < |trace|
    ensures AllSent(resets, trace[..i + 1], from)
       <==> AllSent(resets, trace[..i], from) && (trace[i].MessageComplete? ==> resets(Join(trace[..i + 1])))
  {
    hide Join;
    assert forall k | 0 <= k <= i :: trace[..i + 1][..k] == trace[..i][..k] == trace[..k];
    assert trace[..i + 1][..i + 1] == trace[..i + 1];
    assert trace[..i + 1][i] == trace[i];
  }

  /** `now` is `before` and a proper beginning of `data`. */
  ghost predicate CutShort(now: string, before: string, data: string) {
    exists k | 0 <= k < |data| :: now == before + data[..k]
  }

  lemma TakenIs(before: string, text: string, room: nat)
    ensures |text| <= room ==> Taken(text, room) == text
    ensures room < |text| ==> CutShort(before + Taken(text, room), before, text)
  {
  }

  /** What is left of a connection that stood at `d` when its reply to a request failed: the requests before
      it and the request itself were served in order, and the wire holds their replies and a proper
      beginning of the failing one. */
  ghost predicate BrokenAt(h: Handler, d: Cx, snap: Snapshot, served: seq<Receiver.Message>, out: string) {
    var r := Finish(d.r, snap);
    && d.served + (if r.error.PARSE_OK? then [r.msg] else []) <= served
    && exists part :: CutShort(part, d.out, ReplyText(Answer(h, r, BlankReply(d.major, d.minor), snap))) && part <= out
  }

  lemma BrokenMore(h: Handler, d: Cx, snap: Snapshot, served: seq<Receiver.Message>, out: string,
                   served': seq<Receiver.Message>, out': string)
    requires BrokenAt(h, d, snap, served, out) && served <= served' && out <= out'
    ensures BrokenAt(h, d, snap, served', out')
  {
    hide Finish, Answer, ReplyText, CutShort;
    var r := Finish(d.r, snap);
    var part :| CutShort(part, d.out, ReplyText(Answer(h, r, BlankReply(d.major, d.minor), snap))) && part <= out;
    assert part <= out';
  }

  /** Entry `at` of the record is the first completion whose reply fails, and the connection broke there. */
  ghost predicate Broke(h: Handler, resets: Policy, c: Cx, trace: seq<Event>, from: nat, at: nat,
                        served: seq<Receiver.Message>, out: string) {
    && from <= at < |trace| && trace[at].MessageComplete?
    && AllSent(resets, trace[..at], from) && !resets(Join(trace[..at + 1]))
    && BrokenAt(h, CxOnAll(h, c, trace[from..at]), trace[at].snap, served, out)
  }

  lemma BrokeMore(h: Handler, resets: Policy, c: Cx, trace: seq<Event>, from: nat, at: nat,
                  served: seq<Receiver.Message>, out: string, served': seq<Receiver.Message>, out': string)
    requires Broke(h, resets, c, trace, from, at, served, out) && served <= served' && out <= out'
    ensures Broke(h, resets, c, trace, from, at, served', out')
  {
    hide BrokenAt, CxOnAll, AllSent, Join;
    BrokenMore(h, CxOnAll(h, c, trace[from..at]), trace[at].snap, served, out, served', out');
  }

  /** Seen from earlier on, when every reply until `mid` was sent. */
  lemma BrokeBefore(h: Handler, resets: Policy, c: Cx, trace: seq<Event>, from: nat, mid: nat, at: nat,
                    served: seq<Receiver.Message>, out: string)
    requires from <= mid <= |trace| && AllSent(resets, trace[..mid], from)
    requires Broke(h, resets, CxOnAll(h, c, trace[from..mid]), trace, mid, at, served, out)
    ensures Broke(h, resets, c, trace, from, at, served, out)
  {
    hide BrokenAt, CxOnAll, AllSent, Join;
    SentOn(resets, trace[..mid], trace[..at], from);
    assert trace[from..at] == trace[from..mid] + trace[mid..at];
    CxOnAllConcat(h, c, trace[from..mid], trace[mid..at]);
  }

  lemma ReplyNotEmpty(p: OutgoingReply)
    ensures ReplyText(p) != ""
  {
    hide ReplyHeaders, ResponseHead;
    HeadNotEmpty(p.major, p.minor, p.code, p.phrase, ReplyHeaders(p));
  }

  lemma TakenWhole(a: string, room: nat)
    requires |a| <= room
    ensures Taken(a, room) == a
  {
  }

  lemma Adjoin(a: string, b: string, c: string)
    ensures a + b + c == a + (b + c) && a + b + "" == a + b
  {
  }

  class Connection {
    const request: RequestObject.Request
    const reply: ReplyObject.Reply
    const parser: Parser
    const wire: Wire
    /** The router and the handler it finds. */
    const handle: Handler
    var state: CxState
    /** The requests that the handler was given. */
    ghost var served: seq<Receiver.Message>

    ghost predicate Valid()
      reads this, parser, request, request.msg, request.msg.body, reply, reply.msg, reply.msg.body
    {
      && parser.mode.Request? && parser.request == request && parser.msg == request.msg && parser.reply == null
      && parser.Valid() && reply.Valid() && request.msg.body.disk.Healthy? && reply.msg.body.disk.Healthy? && KeepsMaps(handle)
      && reply.msg != request.msg && reply.msg.body != request.msg.body
    }

    ghost function View(): Cx
      requires Valid()
      reads this, parser, request, request.msg, request.msg.body, reply, reply.msg, reply.msg.body, wire
    {
      Cx(parser.View(), reply.major, reply.minor, state, served, wire.out)
    }

    /** The reply is as reset leaves it. */
    ghost predicate Clean()
      reads reply, reply.msg, reply.msg.body
    {
      reply.Outgoing() == BlankReply(reply.major, reply.minor)
    }

    /** `resets` tells, for every history of callbacks, whether the reply sent then reaches the client. */
    constructor (h: Handler, resets: Policy)
      requires KeepsMaps(h)
      ensures Valid() && Clean() && parser.http.Valid()
      ensures View() == Cx(Fresh(HttpTypes.Request, []), 1, 1, ST_READY_FOR_DATA, [], "")
      ensures parser.http.Fields() == Init(HttpTypes.Request) && parser.http.trace == [] && parser.http.resets == resets
      ensures handle == h && fresh(wire)
      ensures fresh(parser) && fresh(parser.http) && fresh(request) && fresh(request.msg) && fresh(request.msg.body)
      ensures fresh(reply) && fresh(reply.msg) && fresh(reply.msg.body)
    {
      var q := new RequestObject.Request(Healthy);
      request := q;
      reply := new ReplyObject.Reply(Healthy);
      parser := new Parser.ForRequest(q, resets);
      wire := new Wire(0);
      handle := h;
      state, served := ST_READY_FOR_DATA, [];
    }

    method ProcessError()
      modifies reply`code, reply`status
      ensures reply.Outgoing() == ErrorReply(parser.error, old(reply.Outgoing()))
      ensures parser.error == PARSE_BODY_TOO_LARGE ==> reply.code == 413 && reply.status == "Request entity too large"
      ensures parser.error == PARSE_URI_TOO_LONG ==> reply.code == 414 && reply.status == "Request URI too long"
      ensures parser.error != PARSE_BODY_TOO_LARGE && parser.error != PARSE_URI_TOO_LONG ==>
                reply.code == 400 && reply.status == "Bad request"
    {
      if parser.error.PARSE_BODY_TOO_LARGE? {
        reply.SetStatus(413, "Request entity too large");
      } else if parser.error.PARSE_URI_TOO_LONG? {
        reply.SetStatus(414, "Request URI too long");
      } else {
        reply.SetStatus(400, "Bad request");
      }
    }

    /** The handler builds the reply with the reply's own operations. */
    method Handle()
      requires Valid()
      modifies this`served, reply, reply.msg, reply.msg.body
      ensures Valid() && served == old(served) + [request.View()]
      ensures reply.Outgoing() == handle(request.View(), old(reply.Outgoing()))
    {
      hide Sorted;
      var p := handle(request.View(), reply.Outgoing());
      served := served + [request.View()];
      reply.SetHttpVersion(p.major, p.minor);
      reply.SetStatus(p.code, p.phrase);
      reply.msg.headers := p.headers;
      reply.msg.body.Clear();
      reply.msg.AddBody(p.body);
      assert "" + p.body == p.body;
    }

    /** The reply before it is sent. */
    method Reply(snap: Snapshot)
      requires Valid()
      modifies this`state, this`served, reply, reply.msg, reply.msg.body
      ensures Valid()
      ensures reply.Outgoing() == Answer(handle, parser.View(), old(reply.Outgoing()), snap)
      ensures state == StateAfter(old(state), parser.View(), snap)
      ensures served == old(served) + if parser.error.PARSE_OK? then [request.View()] else []
    {
      hide Sorted, Put, Get, ErrorReply;
      if parser.error != PARSE_OK {
        state := ST_PARSE_ERROR;
        ProcessError();
      } else {
        Handle();
      }
      if snap.httpMajor == 1 && snap.httpMinor == 0 {
        state := ST_SHOULD_CLOSE;
        reply.SetHttpVersion(1, 0);
        reply.msg.AddHeader(CONNECTION_NAME, CLOSE_VALUE);
      }
      if request.msg.GetHeader(CONNECTION_NAME) == CLOSE_VALUE {
        state := ST_SHOULD_CLOSE;
        reply.msg.AddHeader(CONNECTION_NAME, CLOSE_VALUE);
      }
    }

    /** send_headers: everything that prepare put together. */
    method SendHeaders() returns (ok: bool)
      modifies wire
      ensures ok <==> |reply.msg.data| <= old(wire.room)
      ensures wire.out == old(wire.out) + Taken(reply.msg.data, old(wire.room))
      ensures wire.room == old(wire.room) - |Taken(reply.msg.data, old(wire.room))|
    {
      var i := 0;
      while i != |reply.msg.data|
        invariant 0 <= i <= |reply.msg.data| && wire.out == old(wire.out) + reply.msg.data[..i]
        invariant i <= old(wire.room) && wire.room == old(wire.room) - i
        decreases |reply.msg.data| - i
      {
        var sent := wire.SafeWrite(reply.msg.data[i..]);
        if sent <= 0 {
          return false;
        }
        TakeMore(reply.msg.data, i, i + sent);
        i := i + sent;
      }
      return true;
    }

    /** send: whatever the wire takes is taken of the reply, headers and both tiers of the body in order. */
    method Send() returns (ok: bool)
      requires reply.Valid()
      modifies reply.msg, wire
      ensures reply.Valid() && (ok <==> |ReplyText(old(reply.Outgoing()))| <= old(wire.room))
      ensures wire.out == old(wire.out) + Taken(ReplyText(old(reply.Outgoing())), old(wire.room))
    {
      hide ReplyText, Taken;
      ghost var text, before, room := ReplyText(reply.Outgoing()), wire.out, wire.room;
      reply.Prepare();
      var body := reply.msg.body;
      TakenBoth(reply.msg.data, body.file, room);
      assert |reply.msg.data| <= room ==> Taken(reply.msg.data, room) == reply.msg.data by {
        if |reply.msg.data| <= room {
          TakenWhole(reply.msg.data, room);
        }
      }
      ok := SendHeaders();
      if ok {
        ok := SendBufferedBody(wire, body);
      }
      Adjoin(before, Taken(reply.msg.data, room), if |reply.msg.data| <= room then Taken(body.file, room - |reply.msg.data|) else "");
    }

    /** Ready for the next request.  The reset of the parser underneath has been made by the time its
        callbacks are replayed, so that only its other fields are left. */
    method ResetAll()
      requires Valid()
      modifies parser`error, parser`headerKey, parser`headerVal, parser`gotVal,
               request, request.msg, request.msg.body, reply, reply.msg, reply.msg.body
      ensures Valid() && parser.View() == Fresh(HttpTypes.Request, [])
      ensures reply.Outgoing() == BlankReply(old(reply.major), old(reply.minor))
    {
      hide Sorted, BlankReply;
      request.Reset();
      reply.Reset();
      parser.ResetFields();
    }

    /** process, which the parser calls when a request is complete; `reaches` tells whether the reply
        reaches the client. */
    method Process(snap: Snapshot, reaches: bool) returns (ok: bool)
      requires Valid()
      modifies this`state, this`served, parser, request, request.msg, request.msg.body,
               reply, reply.msg, reply.msg.body, wire
      ensures Valid() && ok == reaches
      ensures old(state) != ST_READY_FOR_DATA || !ok ==> state != ST_READY_FOR_DATA
      ensures ok ==> Clean() && (old(Clean()) ==> View() == Serve(handle, old(View()), snap))
      ensures !ok ==> state == ST_IO_ERROR
      ensures served == old(served) + (if old(parser.error).PARSE_OK? then [old(request.View())] else [])
      ensures old(wire.out) <= wire.out
      ensures !ok ==> CutShort(wire.out, old(wire.out),
                               ReplyText(Answer(handle, old(parser.View()), old(reply.Outgoing()), snap)))
    {
      hide ReplyText, CutShort, Answer, Sorted, Finish, On, Taken;
      Reply(snap);
      assert parser.View() == old(parser.View());
      var text := ReplyText(reply.Outgoing());
      ReplyNotEmpty(reply.Outgoing());
      wire.Foresee(reaches, |text|);
      TakenIs(old(wire.out), text, wire.room);
      ok := Send();
      if !ok {
        state := ST_IO_ERROR;
        return;
      }
      ResetAll();
    }

    /** One callback of the parser; after the last one of a request, process. */
    method OnEvent(e: Event, reaches: bool)
      requires Valid()
      modifies this`state, this`served, parser, request, request.msg, request.msg.body,
               reply, reply.msg, reply.msg.body, wire
      ensures Valid()
      ensures (e.MessageComplete? ==> reaches) && old(Clean()) ==> Clean() && View() == CxOn(handle, old(View()), e)
      ensures e.MessageComplete? && !reaches && old(Clean()) ==> BrokenAt(handle, old(View()), e.snap, served, wire.out)
      ensures old(served) <= served && old(wire.out) <= wire.out
      ensures old(state) != ST_READY_FOR_DATA || (e.MessageComplete? && !reaches) ==> state != ST_READY_FOR_DATA
    {
      hide On, Finish, Serve, Answer, ReplyText, BlankReply, Sorted, CutShort;
      ghost var c := View();
      parser.HoldsView();
      parser.Deliver(e, c.r);
      assert View() == c.(r := On(c.r, e));
      if e.MessageComplete? {
        OnIsFinish(c.r, e.snap);
        var ok := Process(e.snap, reaches);
        if !ok {
          parser.error := PARSE_HANDLER_FAILURE;
        }
      }
    }

    /** Parser::add as the connection calls it: bytes go in, and complete requests are answered. */
    method Add(data: string)
      requires Valid() && parser.http.Valid()
      modifies this`state, this`served, parser, parser.http, request, request.msg, request.msg.body,
               reply, reply.msg, reply.msg.body, wire
      ensures Valid() && parser.http.Valid() && old(parser.http.trace) <= parser.http.trace
      ensures exists n :: Executed(parser.http.resets, old(parser.http.Abstract()), data, parser.http.Abstract(), n)
      ensures var from, trace := |old(parser.http.trace)|, parser.http.trace;
        if AllSent(parser.http.resets, trace, from)
        then old(Clean()) ==> Clean() && View() == CxOnAll(handle, old(View()), trace[from..])
        else state != ST_READY_FOR_DATA
             && (old(Clean()) ==> exists at :: Broke(handle, parser.http.resets, old(View()), trace, from, at, served, wire.out))
      ensures old(state) != ST_READY_FOR_DATA ==> state != ST_READY_FOR_DATA
      ensures old(parser.http.errno) != HPE_OK ==> View() == old(View())
    {
      hide On, Finish, CxOn, Executed, AllSent, Join, BlankReply, Sorted, BrokenAt, CxOnAll;
      var http := parser.http;
      ghost var c, clean := View(), Clean();
      var from := |http.trace|;
      ghost var m0 := http.Abstract();
      var n := http.Execute(data);
      ghost var m1 := http.Abstract();
      ghost var trace, resets := http.trace, http.resets;
      assert AllSent(resets, trace[..from], from) by {
        NoneSent(resets, trace, from);
      }
      assert trace[from..from] == [];
      NoEvents(handle, c);
      ghost var at := from;
      var i := from;
      while i < |http.trace|
        invariant from <= i <= |trace| && http.trace == trace && Valid() && http.Valid() && http.Abstract() == m1
        invariant i == from ==> View() == c
        invariant AllSent(resets, trace[..i], from) && clean ==> Clean() && View() == CxOnAll(handle, c, trace[from..i])
        invariant !AllSent(resets, trace[..i], from) || old(state) != ST_READY_FOR_DATA ==> state != ST_READY_FOR_DATA
        invariant !AllSent(resets, trace[..i], from) && clean ==> Broke(handle, resets, c, trace, from, at, served, wire.out)
      {
        SentMore(resets, trace, from, i);
        NextEvent(handle, c, trace, from, i);
        ghost var s0, o0 := served, wire.out;
        OnEvent(http.trace[i], http.resets(Join(http.trace[..i + 1])));
        if clean {
          if !AllSent(resets, trace[..i], from) {
            BrokeMore(handle, resets, c, trace, from, at, s0, o0, served, wire.out);
          } else if !AllSent(resets, trace[..i + 1], from) {
            at := i;
          }
        }
        i := i + 1;
      }
      assert trace[..i] == trace && trace[from..i] == trace[from..];
    }

    /** exec: each of the `received` is what safe_read returns, and then it fails. */
    method Exec(received: seq<string>) returns (k: nat)
      requires Valid() && Clean() && parser.http.Valid() && parser.http.errno == HPE_OK
      requires state == ST_READY_FOR_DATA && NonEmpty(received)
      modifies this`state, this`served, parser, parser.http, request, request.msg, request.msg.body,
               reply, reply.msg, reply.msg.body, wire
      ensures Valid() && k <= |received| && state != ST_READY_FOR_DATA
      ensures old(parser.http.trace) <= parser.http.trace
      ensures var from, trace := |old(parser.http.trace)|, parser.http.trace;
        AllSent(parser.http.resets, trace, from) ==>
          var c := CxOnAll(handle, old(View()), trace[from..]);
          && View() == c.(state := if c.state.ST_READY_FOR_DATA? then ST_IO_ERROR else c.state)
          && (k < |received| ==> !c.state.ST_READY_FOR_DATA?)
      ensures var from, trace := |old(parser.http.trace)|, parser.http.trace;
        !AllSent(parser.http.resets, trace, from) ==>
          exists at :: Broke(handle, parser.http.resets, old(View()), trace, from, at, served, wire.out)
      ensures var r := Run(parser.http.resets, old(parser.http.Abstract()), Concat(received[..k]));
        r.verdict.Going? ==> parser.http.Abstract() == r.m
    {
      hide CxOn, CxOnAll, AllSent, Join, BlankReply, Sorted, Run, Executed, Broke;
      var http := parser.http;
      ghost var c, from, m0, resets := View(), |http.trace|, http.Abstract(), http.resets;
      NoneSent(resets, http.trace, from);
      RunNothing(resets, m0);
      NoEvents(handle, c);
      k := 0;
      assert received[..0] == [] && http.trace[from..] == [] && http.trace[..from] == http.trace;
      while k < |received| && state == ST_READY_FOR_DATA
        invariant 0 <= k <= |received| && Valid() && http.Valid() && from <= |http.trace|
        invariant old(parser.http.trace) <= http.trace
        invariant AllSent(resets, http.trace, from) ==> Clean() && View() == CxOnAll(handle, c, http.trace[from..])
        invariant state == ST_READY_FOR_DATA ==> AllSent(resets, http.trace, from)
        invariant !AllSent(resets, http.trace, from) ==> exists at :: Broke(handle, resets, c, http.trace, from, at, served, wire.out)
        invariant ReadSoFar(resets, m0, Concat(received[..k]), http.Abstract())
      {
        ghost var before, m := http.trace, http.Abstract();
        Add(received[k]);
        ReadOn(resets, m0, received, k, m, http.Abstract());
        SentOn(resets, before, http.trace, from);
        ghost var more := http.trace[|before|..];
        assert http.trace[from..] == before[from..] + more;
        CxOnAllConcat(handle, c, before[from..], more);
        if !AllSent(resets, http.trace, from) {
          ghost var at :| Broke(handle, resets, CxOnAll(handle, c, before[from..]), http.trace, |before|, at, served, wire.out);
          assert http.trace[..|before|] == before && http.trace[from..|before|] == before[from..];
          BrokeBefore(handle, resets, c, http.trace, from, |before|, at, served, wire.out);
        }
        k := k + 1;
      }
      if state == ST_READY_FOR_DATA {
        state := ST_IO_ERROR;
      }
    }
  }

  lemma NoneSent(resets: Policy, trace: seq<Event>, from: nat)
    requires from <= |trace|
    ensures AllSent(resets, trace[..from], from)
  {
  }

  lemma OnIsFinish(r: Received, snap: Snapshot)
    ensures On(r, MessageComplete(snap)) == Finish(r, snap)
  {
    hide Finish;
  }

  lemma NextEvent(h: Handler, c: Cx, trace: seq<Event>, from: nat, i: nat)
    requires from <= i < |trace|
    ensures CxOnAll(h, c, trace[from..i + 1]) == CxOn(h, CxOnAll(h, c, trace[from..i]), trace[i])
  {
    hide CxOn;
    assert trace[from..i + 1][..i - from] == trace[from..i];
  }

  lemma NoEvents(h: Handler, c: Cx)
    ensures CxOnAll(h, c, []) == c
  {
  }

  lemma SentOn(resets: Policy, t: seq<Event>, u: seq<Event>, from: nat)
    requires from <= |t| && t <= u
    ensures AllSent(resets, u, from) <==> AllSent(resets, t, from) && AllSent(resets, u, |t|)
  {
    hide Join;
    forall i | from <= i < |t| ensures t[..i + 1] == u[..i + 1] && t[i] == u[i] {
    }
    if AllSent(resets, u, from) {
      forall i | from <= i < |t| && t[i].MessageComplete? ensures resets(Join(t[..i + 1])) {
        assert u[i].MessageComplete?;
      }
    }
  }
}
