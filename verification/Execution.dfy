/** http_parser_execute as it runs: a loop over a buffer, marks that turn byte ranges into data
    callbacks, bulk reads of body bytes, and `goto reexecute_byte`; proved against `Machine.Run`. */
module Execution {
  import opened Bytes
  import opened HttpTypes
  import opened Dispatch
  import opened EventLog
  import opened Machine
  import opened Invariant

  /** The marks of the data callbacks: where in the buffer each set mark points. */
  type Marks = map<Kind, nat>

  ghost predicate MarksFit(s: State, marks: Marks, p: nat) {
    && (KindOf(s).Some? ==> marks.Keys == {KindOf(s).value})
    && (KindOf(s).None? ==> marks.Keys <= {OnBody})
    && (Unmarked(s) ==> marks == map[])
    && forall k | k in marks :: marks[k] <= p
  }

  /** The log once the marked bytes before `p` have been delivered as well. */
  ghost function Pending(log: Log, marks: Marks, data: string, p: nat): Log
    requires p <= |data| && forall k | k in marks :: marks[k] <= p
  {
    if OnUrl in marks then Push(log, Data(OnUrl, data[marks[OnUrl]..p]))
    else if OnHeaderField in marks then Push(log, Data(OnHeaderField, data[marks[OnHeaderField]..p]))
    else if OnHeaderValue in marks then Push(log, Data(OnHeaderValue, data[marks[OnHeaderValue]..p]))
    else if OnBody in marks then Push(log, Data(OnBody, data[marks[OnBody]..p]))
    else log
  }

  lemma PendingOne(log: Log, k: Kind, i: nat, data: string, p: nat)
    requires i <= p <= |data|
    ensures Pending(log, map[k := i], data, p) == Push(log, Data(k, data[i..p]))
  {
    hide Push;
  }

  /** One more byte under a mark. */
  lemma PendingMore(log: Log, k: Kind, i: nat, data: string, p: nat, q: nat)
    requires i <= p <= q <= |data|
    ensures Pending(log, map[k := i], data, q) == Push(Pending(log, map[k := i], data, p), Data(k, data[p..q]))
  {
    hide Push;
    PendingOne(log, k, i, data, p);
    PendingOne(log, k, i, data, q);
    PushPieces(log, k, data[i..p], data[p..q]);
    assert data[i..p] + data[p..q] == data[i..q];
  }

  lemma OnlyMark(marks: Marks, k: Kind)
    requires marks.Keys == {k}
    ensures marks == map[k := marks[k]]
  {
  }

  /** The marks after MARK. */
  function Marked(marks: Marks, k: Option<Kind>, p: nat): Marks {
    if k.Some? && k.value !in marks then marks[k.value := p] else marks
  }

  /** The marks after CALLBACK_DATA. */
  function Flushed(marks: Marks, k: Option<Kind>): Marks {
    if k.Some? then marks - {k.value} else marks
  }

  /** The log after CALLBACK_DATA. */
  ghost function Delivered(log: Log, marks: Marks, k: Option<Kind>, data: string, p: nat): Log
    requires p <= |data| && forall k | k in marks :: marks[k] <= p
  {
    if k.Some? && k.value in marks then Push(log, Data(k.value, data[marks[k.value]..p])) else log
  }

  /** Marks and flushes of one case have added to the log what the reference step adds for the byte. */
  ghost predicate Logged(sent: Log, marks: Marks, data: string, p: nat, s: State, a: Action)
    requires p < |data| && forall k | k in marks :: marks[k] <= p
  {
    var marks' := Flushed(Marked(marks, a.mark, p), a.flush);
    var sent' := Delivered(sent, Marked(marks, a.mark, p), a.flush, data, p);
    && MarksFit(a.f.state, marks', p + 1)
    && (KindOf(a.f.state).None? ==> marks' == map[])
    && Pending(sent', marks', data, p + 1) == Emit(Pending(sent, marks, data, p), s, a, data[p])
  }

  lemma LoggedMark(sent: Log, marks: Marks, data: string, p: nat, s: State, a: Action)
    requires p < |data| && MarksFit(s, marks, p) && MarkShape(s, a) && !ReadsBody(s) && a.mark.Some?
    ensures Logged(sent, marks, data, p, s, a)
  {
    hide Push, ReadsUrl, Pending, KindOf;
    NoMarks(sent, data, p);
    assert Marked(marks, a.mark, p) == map[a.mark.value := p];
    if a.flush.Some? {
      var sent' := Delivered(sent, Marked(marks, a.mark, p), a.flush, data, p);
      NoMarks(sent', data, p + 1);
      assert data[p..p] == "";
      assert KindOf(a.f.state).None?;
    } else {
      PendingOne(sent, a.mark.value, p, data, p + 1);
      assert data[p..p + 1] == [data[p]];
    }
  }

  lemma LoggedFlush(sent: Log, marks: Marks, data: string, p: nat, s: State, a: Action)
    requires p < |data| && MarksFit(s, marks, p) && MarkShape(s, a) && !ReadsBody(s) && a.mark.None? && a.flush.Some?
    ensures Logged(sent, marks, data, p, s, a)
  {
    hide Push, Pending, KindOf, MarksFit, MarkShape, Unmarked;
    FlushKind(marks, p, s, a);
    var sent' := Delivered(sent, marks, a.flush, data, p);
    NoMarks(sent, data, p);
    NoMarks(sent', data, p + 1);
    FlushedAll(marks, a.flush.value, p);
    if a.flush.value in marks {
      PendingOne(sent, a.flush.value, marks[a.flush.value], data, p);
    }
  }

  /** A flush delivers the only mark there is, and leaves a state without marks. */
  lemma FlushKind(marks: Marks, p: nat, s: State, a: Action)
    requires MarksFit(s, marks, p) && MarkShape(s, a) && a.mark.None? && a.flush.Some?
    ensures marks.Keys <= {a.flush.value} && MarksFit(a.f.state, map[], p + 1)
    ensures forall k | k in marks :: marks[k] <= p
  {
    assert s.ChunkDataAlmostDone? ==> KindOf(s).None?;
  }

  lemma LoggedData(sent: Log, marks: Marks, data: string, p: nat, s: State, a: Action)
    requires p < |data| && MarksFit(s, marks, p) && MarkShape(s, a) && !ReadsBody(s) && a.mark.None? && a.flush.None?
    ensures Logged(sent, marks, data, p, s, a)
  {
    hide Push, ReadsUrl, Pending;
    NoMarks(sent, data, p);
    NoMarks(sent, data, p + 1);
    if KindOf(s).Some? {
      var k := KindOf(s).value;
      OnlyMark(marks, k);
      PendingMore(sent, k, marks[k], data, p, p + 1);
      assert data[p..p + 1] == [data[p]];
    }
  }

  lemma CaseLog(sent: Log, marks: Marks, data: string, p: nat, s: State, a: Action)
    requires p < |data| && MarksFit(s, marks, p) && MarkShape(s, a) && !ReadsBody(s)
    ensures var marks' := Flushed(Marked(marks, a.mark, p), a.flush);
      var sent' := Delivered(sent, Marked(marks, a.mark, p), a.flush, data, p);
      && MarksFit(a.f.state, marks', p + 1)
      && (KindOf(a.f.state).None? ==> marks' == map[])
      && Pending(sent', marks', data, p + 1) == Emit(Pending(sent, marks, data, p), s, a, data[p])
  {
    hide Push, Pending, MarksFit, MarkShape, KindOf, Emit;
    if a.mark.Some? {
      LoggedMark(sent, marks, data, p, s, a);
    } else if a.flush.Some? {
      LoggedFlush(sent, marks, data, p, s, a);
    } else {
      LoggedData(sent, marks, data, p, s, a);
    }
  }

  lemma FlushedAll(marks: Marks, k: Kind, p: nat)
    requires marks.Keys <= {k}
    ensures Flushed(marks, Some(k)) == map[]
    ensures if k in marks then marks == map[k := marks[k]] else marks == map[]
  {
  }

  /** `log` is `sent`, or `sent` and one data callback that an error suppressed. */
  ghost predicate Unsent(sent: Log, log: Log) {
    sent == log || exists k: Kind, s: string :: log == Push(sent, Data(k, s))
  }

  /** A data state goes on from data of its kind: where a call starts, its mark joins on. */
  ghost predicate Continues(m: Machine) {
    KindOf(m.f.state).Some? ==> EndsWith(m.log, KindOf(m.f.state).value)
  }

  class HttpParser {
    var typ: Type
    var flags: Flags
    var state: State
    var headerState: HeaderState
    var index: nat
    var nread: nat
    var contentLength: nat
    var httpMajor: nat
    var httpMinor: nat
    var statusCode: nat
    var verb: Method
    var errno: Errno
    var upgrade: bool

    /** Every callback made so far, as it was made. */
    var trace: seq<Event>

    /** What the completion callback does to the parser. */
    const resets: Policy

    function Fields(): Fields
      reads this
    {
      HttpTypes.Fields(typ, flags, state, headerState, index, nread, contentLength,
                       httpMajor, httpMinor, statusCode, verb, errno, upgrade)
    }

    ghost function Abstract(): Machine
      reads this
    {
      Machine(Fields(), Join(trace))
    }

    ghost predicate Valid()
      reads this
    {
      errno == HPE_OK ==> Inv(Fields()) && Continues(Abstract())
    }

    constructor (t: Type, r: Policy)
      ensures Valid()
      ensures Fields() == Init(t) && trace == [] && resets == r
      ensures state == (if t.Request? then StartReq else StartRes) && flags == Flags(false, false, false, false, false, false)
      ensures index == nread == contentLength == httpMajor == httpMinor == statusCode == 0 && errno == HPE_OK && !upgrade
    {
      resets := r;
      trace := [];
      typ, flags, state, headerState, index := t, NO_FLAGS, if t.Request? then StartReq else StartRes, HGeneral, 0;
      nread, contentLength, httpMajor, httpMinor, statusCode := 0, 0, 0, 0, 0;
      verb, errno, upgrade := DELETE, HPE_OK, false;
      new;
      InitInv(t);
    }

    method Store(f: Fields)
      modifies this
      ensures Fields() == f && trace == old(trace)
    {
      typ, flags, state, headerState, index := f.typ, f.flags, f.state, f.headerState, f.index;
      nread, contentLength, httpMajor, httpMinor, statusCode :=
        f.nread, f.contentLength, f.httpMajor, f.httpMinor, f.statusCode;
      verb, errno, upgrade := f.verb, f.errno, f.upgrade;
    }

    /** A callback with its event. */
    method Call(e: Event)
      modifies this`trace
      ensures trace == old(trace) + [e] && Join(trace) == Push(old(Join(trace)), e)
    {
      JoinAppend(trace, e);
      trace := trace + [e];
    }

    /** CALLBACK_NOTIFY(message_complete) */
    method NotifyComplete()
      modifies this
      ensures Abstract() == Completed(resets, old(Abstract())) && old(trace) <= trace
      ensures typ == old(typ) && (Fields() == old(Fields()) || Fields() == Init(typ))
    {
      hide Push, Join;
      Call(MessageComplete(SnapshotOf(Fields())));
      if resets(Join(trace)) {
        Store(Init(typ));
      }
    }

    /** One run of the switch in a state that does not read a body. */
    method RunCase(data: string, p: nat, marks: Marks) returns (marks': Marks, exit: Exit)
      requires p < |data| && MarksFit(state, marks, p) && !ReadsBody(state)
      modifies this
      ensures var f := old(Fields());
        var a := Switch(f, data[p]);
        var log := Emit(Pending(old(Join(trace)), marks, data, p), f.state, a, data[p]);
        && exit == a.exit && old(trace) <= trace
        && (exit.Error? || exit.Abort? ==> Fields() == a.f && trace == old(trace))
        && (exit.Reexecute? ==>
              && Fields() == a.f && MarksFit(state, marks', p) && !ReadsBody(state)
              && Pending(Join(trace), marks', data, p)
                 == if a.notice.NotifyHeadersComplete? then Push(log, HeadersComplete(FramingOf(a.f))) else log)
        && (exit.Break? || exit.Return? ==>
              && MarksFit(state, marks', p + 1)
              && (a.notice.NotifyMessageComplete? ==> marks' == map[])
              && Machine(Fields(), Pending(Join(trace), marks', data, p + 1))
                 == if a.notice.NotifyMessageComplete? then Completed(resets, Machine(a.f, log)) else Machine(a.f, log))
    {
      hide Push, Join, Switch, Emit;
      ghost var s, sent := state, Join(trace);
      var a := Switch(Fields(), data[p]);
      exit := a.exit;
      marks' := Marked(marks, a.mark, p);
      Store(a.f);
      if exit.Error? || exit.Abort? {
        return;
      }
      CaseLog(sent, marks, data, p, s, a);
      if a.flush.Some? {
        if a.flush.value in marks' {
          Call(Data(a.flush.value, data[marks'[a.flush.value]..p]));
        }
        marks' := Flushed(marks', a.flush);
      }
      if a.notice.NotifyHeadersComplete? {
        Call(HeadersComplete(FramingOf(Fields())));
      } else if a.notice.NotifyMessageComplete? {
        NotifyComplete();
      }
    }

    /** The switch on one byte, with its `goto reexecute_byte`. */
    method RunByte(data: string, p: nat, marks: Marks) returns (marks': Marks, verdict: Verdict)
      requires p < |data| && MarksFit(state, marks, p) && !ReadsBody(state) && Ready(Fields())
      modifies this
      ensures var (m', v) := Dispatched(resets, Machine(old(Fields()), Pending(old(Join(trace)), marks, data, p)), data[p]);
        && verdict == v && !verdict.Aborted? && old(trace) <= trace
        && (verdict.Failed? ==> Fields() == m'.f && Unsent(Join(trace), m'.log))
        && (verdict.Going? || verdict.Left? ==>
              && MarksFit(state, marks', p + 1)
              && Machine(Fields(), Pending(Join(trace), marks', data, p + 1)) == m')
        && (verdict.Left? ==> marks' == map[])
    {
      hide Push, Join, Switch, Emit, Ready, Shape, Unsent, Completed, Pending;
      ghost var (m', v) := Dispatched(resets, Machine(Fields(), Pending(Join(trace), marks, data, p)), data[p]);
      marks' := marks;
      var exit := Reexecute;
      while exit.Reexecute?
        invariant old(trace) <= trace
        invariant exit.Reexecute? ==>
            && MarksFit(state, marks', p) && !ReadsBody(state) && Ready(Fields())
            && Dispatched(resets, Machine(Fields(), Pending(Join(trace), marks', data, p)), data[p]) == (m', v)
        invariant !exit.Reexecute? ==>
            && !exit.Abort?
            && v == (if exit.Error? then Failed else if exit.Return? then Left else Going)
            && (exit.Error? ==> Fields() == m'.f && Unsent(Join(trace), m'.log))
            && (exit.Break? || exit.Return? ==>
                  && MarksFit(state, marks', p + 1)
                  && Machine(Fields(), Pending(Join(trace), marks', data, p + 1)) == m')
            && (exit.Return? ==> marks' == map[])
        decreases if exit.Reexecute? then Rank(state) + 1 else 0
      {
        SwitchKeeps(Fields(), data[p]);
        ghost var f, sent, before := Fields(), Join(trace), marks';
        ShapeOf(f, data[p]);
        marks', exit := RunCase(data, p, marks');
        if exit.Error? {
          UnsentPending(sent, before, data, p);
        }
      }
      verdict := if exit.Error? then Failed else if exit.Return? then Left else Going;
    }

    /** A bulk read of body bytes, up to byte `q`. */
    method ReadBulk(data: string, p: nat, marks: Marks) returns (marks': Marks, q: nat)
      requires p < |data| && MarksFit(state, marks, p) && ReadsBody(state)
      requires BodyAsserts(Fields()) && contentLength <= ULLONG_MAX
      modifies this
      ensures p <= q < |data| && (old(state).BodyIdentityEof? || q + 1 - p <= old(contentLength))
      ensures MarksFit(state, marks', q + 1) && old(trace) <= trace
      ensures Machine(Fields(), Pending(Join(trace), marks', data, q + 1))
           == BodyRead(resets, Machine(old(Fields()), Pending(old(Join(trace)), marks, data, p)), data[p..q + 1])
    {
      hide Push, Join, Completed, Pending, NewMessage, Marked;
      marks' := Marked(marks, Some(OnBody), p);
      if state.BodyIdentityEof? {
        q := |data| - 1;
        BodyMark(Join(trace), marks, data, p, q + 1);
        return;
      }
      var toRead := if contentLength < |data| - p then contentLength else |data| - p;
      contentLength := contentLength - toRead;
      q := p + toRead - 1;
      BodyMark(Join(trace), marks, data, p, q + 1);
      if contentLength == 0 && state.ChunkData? {
        state := ChunkDataAlmostDone;
      } else if contentLength == 0 {
        FinishBody(data[marks'[OnBody]..q + 1]);
        marks' := map[];
        NoMarks(Join(trace), data, q + 1);
      }
    }

    /** The last byte of a sized body: its data callback, and the byte again in MessageDone. */
    method FinishBody(s: string)
      requires state.BodyIdentity? && contentLength == 0
      modifies this
      ensures var f := To(old(Fields()), MessageDone);
        Abstract() == Completed(resets, Machine(To(f, NewMessage(f)), Push(old(Join(trace)), Data(OnBody, s))))
      ensures KindOf(state).None? && Unmarked(state) && old(trace) <= trace
    {
      hide Push, Join, Completed, ShouldKeepAlive;
      state := MessageDone;
      Call(Data(OnBody, s));
      // goto reexecute_byte
      state := NewMessage(Fields());
      NotifyComplete();
    }

    method FlushMark(k: Kind, data: string, marks: Marks) returns (marks': Marks)
      requires forall k | k in marks :: marks[k] <= |data|
      modifies this`trace
      ensures marks' == marks - {k} && old(trace) <= trace
      ensures Join(trace) == Delivered(old(Join(trace)), marks, Some(k), data, |data|)
    {
      hide Push, Join;
      if k in marks {
        Call(Data(k, data[marks[k]..|data|]));
      }
      marks' := marks - {k};
    }

    /** One iteration of the byte loop; `q` is the last byte it read. */
    method Iterate(data: string, p: nat, marks: Marks) returns (marks': Marks, q: nat, verdict: Verdict)
      requires p < |data| && MarksFit(state, marks, p) && Inv(Fields())
      modifies this
      ensures p <= q < |data| && old(trace) <= trace && !verdict.Aborted?
      ensures var r := Run(resets, Machine(old(Fields()), Pending(old(Join(trace)), marks, data, p)), data[p..]);
        if verdict.Going? then
          && Inv(Fields()) && MarksFit(state, marks', q + 1)
          && r == After(q + 1 - p, Run(resets, Machine(Fields(), Pending(Join(trace), marks', data, q + 1)), data[q + 1..]))
        else if verdict.Left? then
          && Inv(Fields()) && KindOf(state).None? && q == p
          && r == Ran(Abstract(), 1, Left)
        else
          && errno != HPE_OK && r == Ran(r.m, 0, Failed) && Fields() == r.m.f && Unsent(Join(trace), r.m.log)
    {
      hide Push, Join, Completed, Pending, Unsent, Inv, Ready, Dispatched, Run, BodyRead, Switch;
      ghost var m := Machine(Fields(), Pending(Join(trace), marks, data, p));
      InvFacts(Fields());
      if ReadsBody(state) {
        marks', q := ReadBulk(data, p, marks);
        verdict := Going;
        RunBody(resets, m, data[p..], q + 1 - p);
        BodyReadKeeps(resets, m, data[p..q + 1]);
        assert data[p..][..q + 1 - p] == data[p..q + 1];
        assert data[p..][q + 1 - p..] == data[q + 1..];
        return;
      }
      marks', q := marks, p;
      RunUnfolds(resets, m, data[p..]);
      assert data[p..][1..] == data[p + 1..];
      if ParsingHeader(state) {
        nread := nread + 1;
        if nread > HTTP_MAX_HEADER_SIZE {
          errno := HPE_HEADER_OVERFLOW;
          verdict := Failed;
          UnsentPending(Join(trace), marks, data, p);
          return;
        }
      }
      DispatchedKeeps(resets, m.(f := Fields()), data[p]);
      marks', verdict := RunByte(data, p, marks);
      if verdict.Left? {
        NoMarks(Join(trace), data, p + 1);
      }
    }

    /** The callbacks for marks left over when the bytes are used up. */
    method FlushAll(data: string, marks: Marks)
      requires MarksFit(state, marks, |data|)
      modifies this`trace
      ensures old(trace) <= trace && Join(trace) == Pending(old(Join(trace)), marks, data, |data|)
    {
      hide Push, Join, Pending, Delivered;
      AtMostOneMark(state, marks, |data|);
      assert |marks| <= 1;
      DeliverAll(Join(trace), marks, data);
      var rest := FlushMark(OnHeaderField, data, marks);
      rest := FlushMark(OnHeaderValue, data, rest);
      rest := FlushMark(OnUrl, data, rest);
      rest := FlushMark(OnBody, data, rest);
    }

    /** A call of length 0. */
    method End() returns (n: nat)
      requires Valid() && errno == HPE_OK
      modifies this
      ensures Valid() && old(trace) <= trace
      ensures AtEof(resets, old(Abstract()), Abstract(), n)
    {
      hide Push, Join, Completed;
      if state.BodyIdentityEof? {
        NotifyComplete();
        InitInv(typ);
        return 0;
      } else if state.Dead? || state.StartRes? || state.StartReq? {
        return 0;
      }
      errno := HPE_INVALID_EOF_STATE;
      return 1;
    }

    /** http_parser_execute */
    method Execute(data: string) returns (n: nat)
      requires Valid()
      modifies this
      ensures Valid() && old(trace) <= trace
      ensures Executed(resets, old(Abstract()), data, Abstract(), n)
      ensures old(errno) != HPE_OK ==> trace == old(trace)
    {
      hide Push, Join, Completed, Pending, Unsent, Inv, Ready, Run, AtEof;
      if errno != HPE_OK {
        return 0;
      }
      if data == "" {
        n := End();
        return;
      }
      ghost var r := Run(resets, Abstract(), data);
      var marks: Marks := if KindOf(state).Some? then map[KindOf(state).value := 0] else map[];
      StartOfCall(Abstract(), marks, data);
      assert data[0..] == data;
      var p := 0;
      while p < |data|
        invariant p <= |data| && old(trace) <= trace
        invariant Inv(Fields()) && MarksFit(state, marks, p)
        invariant r == After(p, Run(resets, Machine(Fields(), Pending(Join(trace), marks, data, p)), data[p..]))
      {
        var q, verdict;
        marks, q, verdict := Iterate(data, p, marks);
        if verdict.Failed? {
          return p;
        } else if verdict.Left? {
          InvFacts(Fields());
          return p + 1;
        }
        p := q + 1;
      }
      assert data[p..] == "";
      RunNothing(resets, Machine(Fields(), Pending(Join(trace), marks, data, p)));
      InvFacts(Fields());
      StillContinues(Fields(), Join(trace), marks, data);
      FlushAll(data, marks);
      n := |data|;
    }
  }

  /** A call of length 0 reports the end of the stream: it completes a message whose body lasts until
      then, is nothing between messages, and is an error anywhere else. */
  ghost predicate AtEof(resets: Policy, before: Machine, after: Machine, n: nat) {
    if before.f.state.BodyIdentityEof? then n == 0 && after == Completed(resets, before)
    else if MessageStart(before.f.state) then n == 0 && after == before
    else n == 1 && after == before.(f := before.f.(errno := HPE_INVALID_EOF_STATE))
  }

  /** What a call does: nothing after an error, and otherwise what the reference machine does. */
  ghost predicate Executed(resets: Policy, before: Machine, data: string, after: Machine, n: nat) {
    if before.f.errno != HPE_OK then n == 0 && after == before
    else if data == "" then AtEof(resets, before, after, n)
    else
      var r := Run(resets, before, data);
      && n == r.n && after.f == r.m.f && !r.verdict.Aborted?
      && (if r.verdict.Failed? then after.f.errno != HPE_OK && Unsent(after.log, r.m.log)
          else after.f.errno == HPE_OK && after.log == r.m.log)
  }

  lemma NoMarks(log: Log, data: string, p: nat)
    requires p <= |data|
    ensures Pending(log, map[], data, p) == log
  {
  }

  /** The marks at the start of a call deliver nothing yet. */
  lemma StartOfCall(m: Machine, marks: Marks, data: string)
    requires Continues(m)
    requires marks == if KindOf(m.f.state).Some? then map[KindOf(m.f.state).value := 0] else map[]
    ensures Pending(m.log, marks, data, 0) == m.log
  {
    hide Push;
    if KindOf(m.f.state).Some? {
      PendingOne(m.log, KindOf(m.f.state).value, 0, data, 0);
      PushNothing(m.log, KindOf(m.f.state).value);
      assert data[0..0] == "";
    }
  }

  /** Body bytes from `p` to `q` under MARK(body). */
  lemma BodyMark(log: Log, marks: Marks, data: string, p: nat, q: nat)
    requires p <= q <= |data| && marks.Keys <= {OnBody} && forall k | k in marks :: marks[k] <= p
    ensures var marks' := Marked(marks, Some(OnBody), p);
      && marks'.Keys == {OnBody} && marks'[OnBody] <= p
      && Pending(log, marks', data, q) == Push(Pending(log, marks, data, p), Data(OnBody, data[p..q]))
      && Pending(log, marks', data, q) == Push(log, Data(OnBody, data[marks'[OnBody]..q]))
  {
    hide Push;
    var marks' := Marked(marks, Some(OnBody), p);
    if OnBody in marks {
      OnlyMark(marks, OnBody);
      PendingMore(log, OnBody, marks[OnBody], data, p, q);
      PendingOne(log, OnBody, marks[OnBody], data, q);
    } else {
      assert marks == map[];
      assert marks' == map[OnBody := p];
      PendingOne(log, OnBody, p, data, q);
    }
  }

  lemma RunNothing(resets: Policy, m: Machine)
    ensures Run(resets, m, "") == Ran(m, 0, Going)
  {
    hide Step;
  }

  lemma StillContinues(f: Fields, log: Log, marks: Marks, data: string)
    requires MarksFit(f.state, marks, |data|)
    ensures Continues(Machine(f, Pending(log, marks, data, |data|)))
  {
    if KindOf(f.state).Some? {
      var k := KindOf(f.state).value;
      OnlyMark(marks, k);
      PendingOne(log, k, marks[k], data, |data|);
    }
  }

  lemma DeliverAll(log: Log, marks: Marks, data: string)
    requires |marks| <= 1 && forall k | k in marks :: marks[k] <= |data|
    ensures var m1 := marks - {OnHeaderField}; var m2 := m1 - {OnHeaderValue}; var m3 := m2 - {OnUrl};
      var l1 := Delivered(log, marks, Some(OnHeaderField), data, |data|);
      var l2 := Delivered(l1, m1, Some(OnHeaderValue), data, |data|);
      var l3 := Delivered(l2, m2, Some(OnUrl), data, |data|);
      Delivered(l3, m3, Some(OnBody), data, |data|) == Pending(log, marks, data, |data|)
  {
    hide Push;
    if marks != map[] {
      var k :| k in marks;
      assert |marks.Keys - {k}| == 0;
    }
  }

  lemma AtMostOneMark(s: State, marks: Marks, p: nat)
    requires MarksFit(s, marks, p)
    ensures |marks| <= 1
  {
    assert |marks| == |marks.Keys|;
    if KindOf(s).None? && marks != map[] {
      var k :| k in marks;
      assert marks.Keys == {OnBody};
    }
  }

  lemma InvFacts(f: Fields)
    requires Inv(f)
    ensures f.errno == HPE_OK && f.contentLength <= ULLONG_MAX
    ensures ReadsBody(f.state) ==> BodyAsserts(f)
    ensures !ParsingHeader(f.state) ==> Ready(f)
    ensures ParsingHeader(f.state) && f.nread < HTTP_MAX_HEADER_SIZE ==> Ready(f.(nread := f.nread + 1))
  {
  }

  lemma BodyReadKeeps(resets: Policy, m: Machine, s: string)
    requires Inv(m.f) && ReadsBody(m.f.state)
    requires m.f.state.BodyIdentityEof? || |s| <= m.f.contentLength
    ensures Inv(BodyRead(resets, m, s).f)
  {
    hide Push;
  }

  lemma RunUnfolds(resets: Policy, m: Machine, data: string)
    requires data != ""
    ensures var f := if ParsingHeader(m.f.state) then m.f.(nread := m.f.nread + 1) else m.f;
      if ParsingHeader(m.f.state) && f.nread > HTTP_MAX_HEADER_SIZE then
        Run(resets, m, data) == Ran(m.(f := f.(errno := HPE_HEADER_OVERFLOW)), 0, Failed)
      else
        var (m', v) := Dispatched(resets, m.(f := f), data[0]);
        Run(resets, m, data) == match v
          case Going => After(1, Run(resets, m', data[1..]))
          case Left => Ran(m', 1, Left)
          case _ => Ran(m', 0, v)
  {
    hide Dispatched;
  }

  lemma ShapeOf(f: Fields, ch: char)
    ensures var a := Switch(f, ch);
      && (a.exit.Reexecute? ==> Rank(a.f.state) < Rank(f.state))
      && (a.exit.Return? ==> a.notice.NotifyMessageComplete?)
      && (a.notice.NotifyMessageComplete? ==> a.exit.Break? || a.exit.Return?)
  {
    hide Switch;
  }

  lemma UnsentPending(log: Log, marks: Marks, data: string, p: nat)
    requires p <= |data| && forall k | k in marks :: marks[k] <= p
    ensures Unsent(log, Pending(log, marks, data, p))
  {
    hide Push;
  }
}
