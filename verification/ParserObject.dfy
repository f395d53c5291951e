/** http::Parser: the callbacks as methods, and add. */
module ParserObject {
  import opened HttpTypes
  import opened EventLog
  import opened Machine
  import opened Invariant
  import opened Execution
  import opened Fragmentation
  import opened Headers
  import opened QueryString
  import opened BodyStore
  import opened MessageBase
  import opened RequestObject
  import opened ReplyObject
  import opened Receiver

  class Parser {
    const mode: Type
    const http: HttpParser
    /** The message that is filled in; the one of the other kind is null. */
    const request: RequestObject.Request?
    const reply: ReplyObject.Reply?
    const msg: MessageBase.Message

    var error: Outcome
    var headerKey: string
    var headerVal: string
    var gotVal: bool

    ghost predicate Valid()
      reads this, request, reply, msg, msg.body
    {
      && (mode.Request? ==> request != null && request.msg == msg && request.Valid())
      && (mode.Response? ==> reply != null && reply.msg == msg && reply.Valid())
    }

    ghost function View(): Received
      requires Valid()
      reads this, request, reply, msg, msg.body
    {
      Received(mode, error, headerKey, headerVal, gotVal,
        if mode.Request? then request.View()
        else Receiver.Message(msg.headers, msg.body.Contents(), GET, "", map[], reply.code))
    }

    /** What is held of the message that `b` holds whole. */
    ghost predicate Holds(b: Received)
      requires Valid()
      reads this, request, reply, msg, msg.body
    {
      Stores(msg.body.disk, View(), b)
    }

    lemma HoldsView()
      requires Valid()
      ensures Holds(View())
    {
      msg.body.Tiers();
      StoresSelf(msg.body.disk, View());
    }

    constructor ForRequest(q: RequestObject.Request, resets: Policy)
      requires q.Valid()
      ensures Valid() && mode.Request? && request == q && msg == q.msg && reply == null
      ensures http.Valid() && http.Fields() == Init(HttpTypes.Request) && http.trace == [] && http.resets == resets && fresh(http)
      ensures View() == Received(HttpTypes.Request, PARSE_OK, "", "", false, q.View())
    {
      mode, request, reply, msg := HttpTypes.Request, q, null, q.msg;
      error, headerKey, headerVal, gotVal := PARSE_OK, "", "", false;
      http := new HttpParser(HttpTypes.Request, resets);
    }

    constructor ForReply(p: ReplyObject.Reply, resets: Policy)
      requires p.Valid()
      ensures Valid() && mode.Response? && reply == p && msg == p.msg && request == null
      ensures http.Valid() && http.Fields() == Init(HttpTypes.Response) && http.trace == [] && http.resets == resets && fresh(http)
      ensures View() == Received(HttpTypes.Response, PARSE_OK, "", "", false,
                                 Receiver.Message(p.msg.headers, p.msg.body.Contents(), GET, "", map[], p.code))
    {
      mode, request, reply, msg := HttpTypes.Response, null, p, p.msg;
      error, headerKey, headerVal, gotVal := PARSE_OK, "", "", false;
      http := new HttpParser(HttpTypes.Response, resets);
    }

    method SaveLastHeader()
      requires Valid()
      modifies this`error, this`headerKey, this`headerVal, this`gotVal, msg`headers
      ensures Valid() && View() == SaveLast(old(View()))
    {
      hide Put, Get, Atol, Sorted;
      if gotVal {
        msg.AddHeader(headerKey, headerVal);
        headerKey, headerVal, gotVal := "", "", false;
      }
      if mode.Request? {
        var sz := Atol(msg.GetHeader(CONTENT_LENGTH_NAME));
        if sz < 0 || sz > MAX_UPLOAD_SIZE {
          error := PARSE_BODY_TOO_LARGE;
          return;
        }
        if msg.GetHeader(EXPECT_NAME) == ONE_HUNDRED_CONTINUE {
          error := PARSE_NEED_100_CONTINUE;
        }
      }
    }

    method OnUrl(s: string)
      requires Valid()
      modifies this`error, request
      ensures Valid() && View() == On(old(View()), Data(HttpTypes.OnUrl, s))
    {
      if mode.Request? && error != PARSE_URI_TOO_LONG {
        if |request.url| + |s| > MAX_URI_LENGTH {
          error := PARSE_URI_TOO_LONG;
        } else {
          request.AddUrlFragment(s);
        }
      }
    }

    method OnHeaderField(s: string)
      requires Valid()
      modifies this`error, this`headerKey, this`headerVal, this`gotVal, msg`headers
      ensures Valid() && View() == On(old(View()), Data(HttpTypes.OnHeaderField, s))
    {
      hide SaveLast;
      SaveLastHeader();
      headerKey := headerKey + s;
    }

    method OnHeaderValue(s: string)
      requires Valid()
      modifies this`headerVal, this`gotVal
      ensures Valid() && View() == On(old(View()), Data(HttpTypes.OnHeaderValue, s))
    {
      headerVal := headerVal + s;
      gotVal := true;
    }

    /** add_body_fragment; what the disk does not take is lost without an error. */
    method OnBody(s: string, ghost b: Received)
      requires Valid() && Holds(b)
      modifies msg.body
      ensures Valid() && Holds(On(b, Data(HttpTypes.OnBody, s)))
    {
      hide Front, Stores;
      ghost var a, k := View(), 0;
      if error != PARSE_BODY_TOO_LARGE {
        msg.AddBody(s);
        k :| 0 <= k <= |s| && msg.body.Contents() == old(msg.body.Contents()) + s[..k];
        AllOf(a.msg.body, s, k);
      }
      StoresBody(msg.body.disk, a, b, View(), s, k);
    }

    method OnMessageComplete(snap: Snapshot)
      requires Valid()
      modifies request, reply
      ensures Valid() && View() == Finish(old(View()), snap)
      ensures mode.Request? && snap.verb in {GET, POST, PUT, HEAD, DELETE} ==> request.verb == snap.verb
      ensures mode.Request? && snap.verb !in {GET, POST, PUT, HEAD, DELETE} ==> request.verb == old(request.verb)
      ensures mode.Response? ==> reply.code == snap.statusCode
    {
      hide QueryOf;
      if mode.Request? {
        request.ExtractQueryString();
        if KnownMethod(snap.verb) {
          request.verb := snap.verb;
        }
      } else {
        reply.SetStatus(snap.statusCode, "");
      }
    }

    /** The callback for an event, up to the call of the owner's function; `b` is what a receiver that
        loses nothing would hold. */
    method Deliver(e: Event, ghost b: Received)
      requires Valid() && Holds(b)
      modifies this, request, reply, msg, msg.body
      ensures Valid() && Holds(On(b, e))
    {
      hide SaveLast, Finish, QueryOf, Stores, On;
      if !IsBody(e) {
        StoresOn(msg.body.disk, View(), b, e);
      }
      OnThese(View(), e);
      match e
      case Data(OnUrl, s) => OnUrl(s);
      case Data(OnHeaderField, s) => OnHeaderField(s);
      case Data(OnHeaderValue, s) => OnHeaderValue(s);
      case Data(OnBody, s) => OnBody(s, b);
      case HeadersComplete(_) => SaveLastHeader();
      case MessageComplete(snap) => OnMessageComplete(snap);
    }

    /** The callbacks that the parser made from its record's entry `seen` on. */
    method DeliverAll(seen: nat, ghost b: Received)
      requires Valid() && seen <= |http.trace| && Holds(b)
      modifies this, request, reply, msg, msg.body
      ensures Valid() && Holds(OnAll(b, http.trace[seen..]))
    {
      hide On, Sorted, Stores;
      var i := seen;
      while i < |http.trace|
        invariant seen <= i <= |http.trace| && Valid() && Holds(OnAll(b, http.trace[seen..i]))
      {
        assert http.trace[seen..i + 1][..i - seen] == http.trace[seen..i];
        Deliver(http.trace[i], OnAll(b, http.trace[seen..i]));
        i := i + 1;
      }
      assert http.trace[seen..i] == http.trace[seen..];
    }

    /** add, for an owner whose function returns true and leaves the parser alone. */
    method Add(data: string, ghost b: Received) returns (result: Outcome)
      requires Valid() && http.Valid() && Holds(b)
      modifies this, http, request, reply, msg, msg.body
      ensures Valid() && http.Valid()
      ensures old(http.trace) <= http.trace
      ensures Holds(OnAll(b, http.trace[|old(http.trace)|..]))
      ensures exists n :: Executed(http.resets, old(http.Abstract()), data, http.Abstract(), n)
                       && result == if n == |data| then View().error else PARSE_FAILURE
    {
      hide On, OnAll, Executed, Sorted, Join, Inv, Stores;
      var seen := |http.trace|;
      ghost var m0 := http.Abstract();
      var parsed := http.Execute(data);
      ghost var m1 := http.Abstract();
      DeliverAll(seen, b);
      assert http.Abstract() == m1;
      result := if parsed == |data| then error else PARSE_FAILURE;
    }

    /** reset: the parser underneath, and the callbacks' own fields. */
    method Reset()
      requires Valid()
      modifies this, http
      ensures Valid() && error.PARSE_OK? && headerKey == "" && headerVal == "" && !gotVal
      ensures http.Fields() == Init(mode) && http.trace == old(http.trace) && http.Valid()
    {
      http.Store(Init(mode));
      InitIsValid(http, mode);
      ResetFields();
    }

    method ResetFields()
      modifies this`error, this`headerKey, this`headerVal, this`gotVal
      ensures error.PARSE_OK? && headerKey == "" && headerVal == "" && !gotVal
    {
      error, headerKey, headerVal, gotVal := PARSE_OK, "", "", false;
    }
  }

  lemma AllOf(body: string, s: string, k: nat)
    requires k <= |s|
    ensures body + s[..k] == body + s ==> k == |s|
  {
    assert |body + s[..k]| == |body| + k;
  }

  lemma OnThese(r: Received, e: Event)
    ensures e.HeadersComplete? ==> On(r, e) == SaveLast(r)
    ensures e.MessageComplete? ==> On(r, e) == Finish(r, e.snap)
  {
    hide SaveLast, Finish;
  }

  lemma InitIsValid(http: HttpParser, t: Type)
    requires http.Fields() == Init(t)
    ensures http.Valid()
  {
    hide Join;
    InitInv(t);
  }

  /** Unless the bytes so far stopped the parser, it is where they lead. */
  ghost predicate ReadSoFar(resets: Policy, m0: Machine, data: string, m: Machine) {
    var r := Run(resets, m0, data);
    r.verdict.Going? ==> m == r.m && m.f.errno == HPE_OK
  }

  lemma ReadOn(resets: Policy, m0: Machine, received: seq<string>, k: nat, m: Machine, m': Machine)
    requires k < |received| && NonEmpty(received)
    requires ReadSoFar(resets, m0, Concat(received[..k]), m)
    requires exists n :: Executed(resets, m, received[k], m', n)
    ensures ReadSoFar(resets, m0, Concat(received[..k + 1]), m')
  {
    hide Run;
    FeedOne(resets, m0, received, k);
    var s := Concat(received[..k]);
    RunConcat(resets, m0, s, received[k]);
  }
}
