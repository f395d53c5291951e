/** The round trips over the objects: a parser object that is given a message in any pieces. */
module ObjectRoundTrips {
  import opened HttpTypes
  import opened EventLog
  import opened Machine
  import opened Execution
  import opened Fragmentation
  import opened MessageRuns
  import opened Headers
  import opened QueryString
  import opened BodyStore
  import opened RequestObject
  import opened ReplyObject
  import opened Chunked
  import opened Receiver
  import opened RoundTrips
  import opened Printing
  import opened ChunkedUploads
  import opened ParserObject

  /** The completion function of an owner that lets the parser go on. */
  function Never(): Policy {
    (log: Log) => false
  }

  /** add for every piece, as the loops of its callers do; `b` is what a receiver that loses nothing holds
      before. */
  method AddAll(p: Parser, pieces: seq<string>, ghost b: Received)
    requires p.Valid() && p.http.Valid() && p.http.errno == HPE_OK && NonEmpty(pieces) && p.Holds(b)
    modifies p, p.http, p.request, p.reply, p.msg, p.msg.body
    ensures p.Valid() && p.http.Valid() && old(p.http.trace) <= p.http.trace
    ensures p.Holds(OnAll(b, p.http.trace[|old(p.http.trace)|..]))
    ensures var r := Run(p.http.resets, old(p.http.Abstract()), Concat(pieces));
      r.verdict.Going? ==> p.http.Abstract() == r.m
  {
    hide On, OnAll, Executed, Sorted, Join, Run, Stores;
    ghost var m0, t0 := p.http.Abstract(), p.http.trace;
    RunNothing(p.http.resets, m0);
    NoCallbacks(b);
    var i := 0;
    assert pieces[..0] == [] && p.http.trace[|t0|..] == [];
    while i < |pieces|
      invariant 0 <= i <= |pieces| && p.Valid() && p.http.Valid() && t0 <= p.http.trace
      invariant p.Holds(OnAll(b, p.http.trace[|t0|..]))
      invariant ReadSoFar(p.http.resets, m0, Concat(pieces[..i]), p.http.Abstract())
    {
      ghost var before, t := p.http.Abstract(), p.http.trace;
      var result := p.Add(pieces[i], OnAll(b, t[|t0|..]));
      ReadOn(p.http.resets, m0, pieces, i, before, p.http.Abstract());
      assert p.http.trace[|t0|..] == t[|t0|..] + p.http.trace[|t|..];
      OnAllConcat(b, t[|t0|..], p.http.trace[|t|..]);
      i := i + 1;
    }
    assert pieces[..i] == pieces;
  }

  lemma NoCallbacks(r: Received)
    ensures OnAll(r, []) == r
  {
  }

  lemma NoLog()
    ensures Join([]) == []
  {
  }

  /** A parser object that is given a printed request in any pieces ends up with that request, but for what
      the disk did not take of its body. */
  method ReceiveRequest(q: OutgoingRequest, pieces: seq<string>, disk: Disk) returns (p: Parser)
    requires Sendable(q) && NonEmpty(pieces) && Concat(pieces) == RequestText(q)
    ensures p.Valid() && Stores(disk, p.View(), Arrived(q.verb, q.url, RequestHeaders(q), q.body))
    ensures disk.Healthy? || |q.body| <= MAX_BUFFER_SIZE ==> p.View() == Arrived(q.verb, q.url, RequestHeaders(q), q.body)
    ensures disk.Missing? ==> p.View() == Arrived(q.verb, q.url, RequestHeaders(q), Front(q.body))
  {
    hide Sendable, RequestText, OnAll, Sorted, Join, Run, RequestHeaders, Concat, NonEmpty, RequestEvents, Front, QueryOf;
    var request := new RequestObject.Request(disk);
    p := new Parser.ForRequest(request, Never());
    NoLog();
    ghost var m0 := Machine(Init(HttpTypes.Request), []);
    assert p.http.Abstract() == m0 && p.View() == Fresh(HttpTypes.Request, []);
    p.HoldsView();
    ghost var m' := RequestRoundTrip(Never(), q, 0, m0);
    AddAll(p, pieces, Fresh(HttpTypes.Request, []));
    assert p.http.trace[0..] == p.http.trace;
    NothingBefore(RequestEvents(q.verb, q.url, RequestHeaders(q), q.body, 0));
  }

  lemma NothingBefore(log: Log)
    ensures [] + log == log
  {
  }

  /** The parser of a reply, with the headers of a blank one underneath. */
  function ReplyArrived(out: OutgoingReply, body: string): Received {
    Received(HttpTypes.Response, PARSE_OK, "", "", false,
      Receiver.Message(PutAll(BlankReply(1, 1).headers, ReplyHeaders(out)), body, GET, "", map[], out.code))
  }

  /** And one that is given a printed reply in any pieces ends up with its code, headers and body, again but
      for what the disk did not take. */
  method ReceiveReply(out: OutgoingReply, pieces: seq<string>, disk: Disk) returns (p: Parser)
    requires Replyable(out) && NonEmpty(pieces) && Concat(pieces) == ReplyText(out)
    ensures p.Valid() && Stores(disk, p.View(), ReplyArrived(out, out.body))
    ensures disk.Healthy? || |out.body| <= MAX_BUFFER_SIZE ==> p.View() == ReplyArrived(out, out.body)
    ensures disk.Missing? ==> p.View() == ReplyArrived(out, Front(out.body))
  {
    hide Replyable, ReplyText, OnAll, Sorted, Join, Run, ReplyHeaders, PutAll, Concat, NonEmpty, Front;
    var reply := new ReplyObject.Reply(disk);
    p := new Parser.ForReply(reply, Never());
    NoLog();
    ghost var m0, h0 := Machine(Init(HttpTypes.Response), []), BlankReply(1, 1).headers;
    assert p.http.Abstract() == m0 && p.View() == Fresh(HttpTypes.Response, h0);
    p.HoldsView();
    ghost var m' := ReplyRoundTrip(Never(), out, h0);
    AddAll(p, pieces, Fresh(HttpTypes.Response, h0));
    assert p.http.trace[0..] == p.http.trace;
  }

  /** A parser object that is given a chunked request in any pieces accepts it if and only if it keeps the
      limits, and then ends up with the bytes of its chunks. */
  method ReceiveChunked(v: Method, url: string, hs: seq<Header>, cs: seq<Chunk>, zero: string, extension: string,
                        trailers: seq<Header>, pieces: seq<string>, disk: Disk) returns (p: Parser)
    requires LegalChunkedRequest(v, url, hs, cs, zero, extension, trailers) && NonEmpty(pieces)
    requires Concat(pieces) == RequestHead(v, url, hs) + ChunkedBody(cs, zero, extension, trailers)
    ensures p.Valid() && (p.error.PARSE_OK? <==> WithinLimits(url, hs) && Bearable(ButLast(trailers)))
    ensures p.error.PARSE_OK? ==> Stores(disk, p.View(), Trailed(Arrived(v, url, PutAll([], hs), Payload(cs)), trailers))
  {
    hide LegalChunkedRequest, ChunkedBody, OnAll, Sorted, Join, Run, Stores, Arrived, Trailed, Concat, NonEmpty, WithinLimits, Bearable,
         PutAll, Payload;
    var request := new RequestObject.Request(disk);
    p := new Parser.ForRequest(request, Never());
    NoLog();
    assert p.http.Abstract() == Machine(Init(HttpTypes.Request), []) && p.View() == Fresh(HttpTypes.Request, []);
    p.HoldsView();
    AddAll(p, pieces, Fresh(HttpTypes.Request, []));
    assert p.http.trace[0..] == p.http.trace;
    ghost var m' := ChunkedUpload(Never(), v, url, hs, cs, zero, extension, trailers, p.http.trace, disk, p.View());
  }
}
