/** What the reference parser makes of the parts of a well-formed message, and of whole requests. */
module MessageRuns {
  import opened Bytes
  import opened HttpTypes
  import opened Dispatch
  import opened EventLog
  import opened Machine
  import opened Recognisers
  import opened HeaderLines
  import opened FirstLines
  import opened StatusLines

  // ---------- The header block ----------

  datatype Header = Header(name: string, value: string)

  function Line(h: Header): string {
    h.name + ": " + h.value + Crlf()
  }

  function Lines(hs: seq<Header>): string {
    if hs == [] then "" else Line(hs[0]) + Lines(hs[1..])
  }

  /** A header that can be printed and read back. */
  predicate LegalHeader(h: Header) {
    h.name != "" && AllToken(h.name) && LegalValue(h.value) && LegalLength(Classify(h.name), h.value)
  }

  predicate LegalHeaders(hs: seq<Header>) {
    forall i | 0 <= i < |hs| :: LegalHeader(hs[i])
  }

  function HeaderEvents(hs: seq<Header>): seq<Event> {
    if hs == [] then []
    else [Data(OnHeaderField, hs[0].name), Data(OnHeaderValue, hs[0].value)] + HeaderEvents(hs[1..])
  }

  function BlockFlags(flags: Flags, hs: seq<Header>): Flags
    decreases |hs|
  {
    if hs == [] then flags else BlockFlags(LineFlags(flags, Classify(hs[0].name), hs[0].value), hs[1..])
  }

  function BlockLength(length: nat, hs: seq<Header>): nat
    requires LegalHeaders(hs)
    decreases |hs|
  {
    if hs == [] then length else BlockLength(LineLength(length, Classify(hs[0].name), hs[0].value), hs[1..])
  }

  lemma LineLog(log: Log, h: Header)
    requires !EndsWith(log, OnHeaderField)
    ensures Push(Push(log, Data(OnHeaderField, h.name)), Data(OnHeaderValue, h.value))
         == log + [Data(OnHeaderField, h.name), Data(OnHeaderValue, h.value)]
  {
  }

  /** Header lines with any line ends. */
  function LinesWith(hs: seq<Header>, ends: seq<string>): string
    requires |ends| == |hs|
    decreases |hs|
  {
    if hs == [] then "" else hs[0].name + ":" + " " + hs[0].value + ends[0] + LinesWith(hs[1..], ends[1..])
  }

  predicate LineEnds(ends: seq<string>) {
    forall i | 0 <= i < |ends| :: LineEnd(ends[i])
  }

  lemma LineParts(h: Header)
    ensures h.name + ":" + " " + h.value + Crlf() == Line(h)
    ensures |Line(h)| == |h.name| + |h.value| + 4
  {
  }

  lemma EventsOn(log: Log, hs: seq<Header>)
    requires hs != []
    ensures log + [Data(OnHeaderField, hs[0].name), Data(OnHeaderValue, hs[0].value)] + HeaderEvents(hs[1..]) == log + HeaderEvents(hs)
  {
  }

  /** Header lines with any line ends: they are called back in order and leave their flags and length. */
  lemma {:induction false} HeaderLinesRead(resets: Policy, m: Machine, hs: seq<Header>, ends: seq<string>) returns (m': Machine)
    requires AtLineStart(m.f.state) && LegalHeaders(hs) && !EndsWith(m.log, OnHeaderField)
    requires |ends| == |hs| && LineEnds(ends) && m.f.nread + |LinesWith(hs, ends)| <= HTTP_MAX_HEADER_SIZE
    ensures Reads(resets, m, LinesWith(hs, ends), m')
    ensures AtLineStart(m'.f.state)
    ensures m'.f == m.f.(state := m'.f.state, index := m'.f.index, headerState := m'.f.headerState,
                         nread := m.f.nread + |LinesWith(hs, ends)|,
                         flags := BlockFlags(m.f.flags, hs), contentLength := BlockLength(m.f.contentLength, hs))
    ensures m'.log == m.log + HeaderEvents(hs)
    decreases |hs|
  {
    hide Step, Reads, Run, Push, Classify, LegalValue, LegalLength, LineFlags, LineLength, IsToken, LineEnd;
    if hs == [] {
      m' := m;
      ReadsNothing(resets, m);
      assert m.log + [] == m.log;
    } else {
      var h := hs[0];
      var m1 := HeaderLine(resets, m, h.name, " ", h.value, ends[0]);
      LineLog(m.log, h);
      EventsOn(m.log, hs);
      m' := HeaderLinesRead(resets, m1, hs[1..], ends[1..]);
      ReadsConcat(resets, m, h.name + ":" + " " + h.value + ends[0], m1, LinesWith(hs[1..], ends[1..]), m');
    }
  }

  function AllCrlf(n: nat): (ends: seq<string>)
    ensures |ends| == n && forall i | 0 <= i < n :: ends[i] == Crlf()
  {
    seq(n, i => Crlf())
  }

  lemma {:induction false} LinesWithCrlf(hs: seq<Header>)
    ensures LinesWith(hs, AllCrlf(|hs|)) == Lines(hs)
    decreases |hs|
  {
    hide Crlf;
    if hs != [] {
      LineParts(hs[0]);
      assert AllCrlf(|hs|)[1..] == AllCrlf(|hs[1..]|);
      LinesWithCrlf(hs[1..]);
    }
  }

  lemma CrlfEnds()
    ensures LineEnd(Crlf()) && |Crlf()| == 2
  {
    assert Crlf() == "\r\n";
  }

  lemma HeaderBlock(resets: Policy, m: Machine, hs: seq<Header>) returns (m': Machine)
    requires AtLineStart(m.f.state) && LegalHeaders(hs) && !EndsWith(m.log, OnHeaderField)
    requires m.f.nread + |Lines(hs)| <= HTTP_MAX_HEADER_SIZE
    ensures Reads(resets, m, Lines(hs), m')
    ensures AtLineStart(m'.f.state)
    ensures m'.f == m.f.(state := m'.f.state, index := m'.f.index, headerState := m'.f.headerState,
                         nread := m.f.nread + |Lines(hs)|,
                         flags := BlockFlags(m.f.flags, hs), contentLength := BlockLength(m.f.contentLength, hs))
    ensures m'.log == m.log + HeaderEvents(hs)
  {
    hide Reads, LegalHeaders, LinesWith, Lines, BlockFlags, BlockLength, Crlf, HeaderEvents;
    LinesWithCrlf(hs);
    CrlfEnds();
    m' := HeaderLinesRead(resets, m, hs, AllCrlf(|hs|));
  }

  // ---------- The end of the headers ----------

  lemma CrEndsHeaders(f: Fields)
    requires f.state.HeaderFieldStart?
    ensures Switch(f, CR) == Go(To(f, HeadersAlmostDone))
  {
    hide Switch;
    Opened(f, CR);
  }

  lemma CrAfterLine(f: Fields)
    requires f.state.HeaderValueLws?
    ensures Switch(f, CR) == Again(To(f, HeaderFieldStart))
  {
    hide Switch;
    Opened(f, CR);
  }

  lemma LastCr(resets: Policy, m: Machine) returns (m': Machine)
    requires AtLineStart(m.f.state) && m.f.nread < HTTP_MAX_HEADER_SIZE
    ensures Step(resets, m, CR) == (m', Going)
    ensures m' == m.(f := Counted(m.f).(state := HeadersAlmostDone))
  {
    hide Switch;
    var f := Counted(m.f);
    m' := m.(f := f.(state := HeadersAlmostDone));
    if m.f.state.HeaderValueLws? {
      CrAfterLine(f);
      StepAgain(resets, m, CR);
      CrEndsHeaders(To(f, HeaderFieldStart));
    } else {
      CrEndsHeaders(f);
      StepBreak(resets, m, CR);
    }
  }

  /** The parser when the headers are complete and its nread has been cleared. */
  function HeadRead(f: Fields): Fields {
    f.(state := HeadersDone, upgrade := f.flags.upgrade || f.verb.CONNECT?, nread := 0)
  }

  /** What follows the headers: nothing, a sized body, chunks, or everything until the end. */
  function AfterHead(resets: Policy, m: Machine): Machine {
    var g := HeadRead(m.f);
    var log := Push(m.log, HeadersComplete(FramingOf(g)));
    match FramingOf(g)
    case Chunked => Machine(To(g, ChunkSizeStart), log)
    case UntilEof => Machine(To(g, BodyIdentityEof), log)
    case Sized(n) =>
      if n > 0 then Machine(To(g, BodyIdentity), log)
      else Completed(resets, Machine(To(g, NewMessage(g)), log))
    case NoBody => Completed(resets, Machine(To(g, NewMessage(g)), log))
  }

  lemma LfEndsHeaders(f: Fields)
    requires f.state.HeadersAlmostDone? && !f.flags.trailing && !f.flags.upgrade && !f.verb.CONNECT?
    ensures Switch(f, LF)
         == Action(f.(state := HeadersDone, upgrade := false), None, None, NotifyHeadersComplete, Reexecute)
  {
    hide Switch;
    Opened(f, LF);
  }

  lemma HeadersAreDone(f: Fields)
    requires f.state.HeadersDone?
    ensures Switch(f, LF) == SwitchHeadersDone(f, LF)
  {
    hide Switch;
    Opened(f, LF);
  }

  lemma LastLf(resets: Policy, m: Machine)
    requires m.f.state.HeadersAlmostDone? && m.f.nread < HTTP_MAX_HEADER_SIZE
    requires !m.f.flags.trailing && !m.f.flags.upgrade && !m.f.verb.CONNECT?
    ensures Step(resets, m, LF) == (AfterHead(resets, m), Going)
  {
    hide Dispatched, AfterHead;
    LastLfDispatched(resets, m.(f := Counted(m.f)));
    AfterHeadSame(resets, m.(f := Counted(m.f)), m);
  }

  lemma LfEndsLine(f: Fields)
    requires f.state.HeaderValueLws?
    ensures Switch(f, LF) == Again(To(f, HeaderFieldStart))
  {
    hide Switch;
    Opened(f, LF);
  }

  lemma LfAtStart(f: Fields)
    requires f.state.HeaderFieldStart?
    ensures Switch(f, LF) == Again(To(f, HeadersAlmostDone))
  {
    hide Switch;
    Opened(f, LF);
  }

  /** The byte that ends the headers is dispatched up to four times if it is a LF alone. */
  lemma LoneLf(resets: Policy, m: Machine)
    requires AtLineStart(m.f.state) && m.f.nread < HTTP_MAX_HEADER_SIZE
    ensures Step(resets, m, LF) == Dispatched(resets, m.(f := Counted(m.f).(state := HeadersAlmostDone)), LF)
  {
    hide Switch;
    var f := Counted(m.f);
    if m.f.state.HeaderValueLws? {
      LfEndsLine(f);
      StepAgain(resets, m, LF);
      LfAtStart(To(f, HeaderFieldStart));
      assert Dispatched(resets, m.(f := To(f, HeaderFieldStart)), LF) == Dispatched(resets, m.(f := To(f, HeadersAlmostDone)), LF);
    } else {
      LfAtStart(f);
      StepAgain(resets, m, LF);
    }
  }

  lemma LastLfDispatched(resets: Policy, m: Machine)
    requires m.f.state.HeadersAlmostDone? && !m.f.flags.trailing && !m.f.flags.upgrade && !m.f.verb.CONNECT?
    ensures Dispatched(resets, m, LF) == (AfterHead(resets, m), Going)
  {
    hide Switch, Push, Completed, NewMessage;
    LfEndsHeaders(m.f);
    var g := m.f.(state := HeadersDone, upgrade := false);
    HeadersAreDone(g);
    var log := Push(m.log, HeadersComplete(FramingOf(g)));
    assert Dispatched(resets, m, LF) == Dispatched(resets, Machine(g, log), LF);
  }

  /** The empty line that ends the headers. */
  lemma HeadEnd(resets: Policy, m: Machine, end: string) returns (m': Machine)
    requires AtLineStart(m.f.state) && LineEnd(end) && m.f.nread + |end| <= HTTP_MAX_HEADER_SIZE
    requires !m.f.flags.trailing && !m.f.flags.upgrade && !m.f.verb.CONNECT?
    ensures Reads(resets, m, end, m')
    ensures m' == AfterHead(resets, m)
  {
    hide Step, Reads, Run, Push, AfterHead, Dispatched;
    var m1;
    if end == "\n" {
      LoneLf(resets, m);
      m1 := m.(f := Counted(m.f).(state := HeadersAlmostDone));
      LastLfDispatched(resets, m1);
      AfterHeadSame(resets, m, m1);
      m' := AfterHead(resets, m);
      ReadsOne(resets, m, LF);
      assert end == [LF];
    } else {
      m1 := LastCr(resets, m);
      LastLf(resets, m1);
      m' := AfterHead(resets, m1);
      AfterHeadSame(resets, m, m1);
      ReadsOne(resets, m1, LF);
      assert end == [CR, LF] && end[1..] == [LF];
      ReadsCons(resets, m, m1, end, m');
    }
  }

  lemma AfterHeadSame(resets: Policy, m: Machine, m1: Machine)
    requires m.log == m1.log && HeadRead(m.f) == HeadRead(m1.f)
    ensures AfterHead(resets, m) == AfterHead(resets, m1)
  {
  }

  // ---------- Whole messages without chunks ----------

  /** No header that changes the framing other than by a length. */
  predicate PlainHeaders(hs: seq<Header>) {
    forall i | 0 <= i < |hs| :: !Classify(hs[i].name).EncodingHeader? && !Classify(hs[i].name).UpgradeHeader?
  }

  lemma {:induction false} PlainFlags(flags: Flags, hs: seq<Header>)
    requires PlainHeaders(hs)
    ensures var r := BlockFlags(flags, hs); r == flags.(keepAlive := r.keepAlive, close := r.close)
    decreases |hs|
  {
    hide Classify, IsLiteral;
    if hs != [] {
      PlainFlags(LineFlags(flags, Classify(hs[0].name), hs[0].value), hs[1..]);
    }
  }

  /** The headers announce exactly this body. */
  predicate Announces(hs: seq<Header>, t: Type, body: string)
    requires LegalHeaders(hs)
  {
    var n := BlockLength(ULLONG_MAX, hs);
    n == |body| < ULLONG_MAX || (n == ULLONG_MAX && body == "" && t.Request?)
  }

  function FramingFor(hs: seq<Header>): Framing
    requires LegalHeaders(hs)
  {
    var n := BlockLength(ULLONG_MAX, hs);
    if n == ULLONG_MAX then NoBody else Sized(n)
  }

  function BodyEvents(body: string): seq<Event> {
    if body == "" then [] else [Data(OnBody, body)]
  }

  /** The callbacks after the first line of a message. */
  function TailEvents(hs: seq<Header>, body: string, snap: Snapshot): seq<Event>
    requires LegalHeaders(hs)
  {
    HeaderEvents(hs) + [HeadersComplete(FramingFor(hs))] + BodyEvents(body) + [MessageComplete(snap)]
  }

  /** Whether a connection persists after a message whose end is known: in version 1.1 unless it is
      closed, in 1.0 and before only if it is kept alive. */
  predicate Persists(major: nat, minor: nat, flags: Flags) {
    if major > 0 && minor > 0 then !flags.close else flags.keepAlive
  }

  function NextState(t: Type, major: nat, minor: nat, flags: Flags): State {
    if !Persists(major, minor, flags) then Dead else if t.Request? then StartReq else StartRes
  }

  lemma NextIsNew(f: Fields)
    requires f.typ.Request? || f.contentLength != ULLONG_MAX
    ensures NewMessage(f) == NextState(f.typ, f.httpMajor, f.httpMinor, f.flags)
  {
  }

  lemma PushHeadersComplete(log: Log, framing: Framing)
    ensures Push(log, HeadersComplete(framing)) == log + [HeadersComplete(framing)]
  {
  }

  lemma CompletedLog(resets: Policy, m: Machine)
    ensures Completed(resets, m).log == m.log + [MessageComplete(SnapshotOf(m.f))]
    ensures resets(Completed(resets, m).log) ==> Completed(resets, m).f == Init(m.f.typ)
    ensures !resets(Completed(resets, m).log) ==> Completed(resets, m).f == m.f
  {
  }

  /** A sized body read to its end. */
  lemma SizedBody(resets: Policy, m: Machine, body: string) returns (m': Machine)
    requires m.f.state.BodyIdentity? && m.f.contentLength == |body| && 0 < |body| < ULLONG_MAX && !EndsWith(m.log, OnBody)
    ensures Reads(resets, m, body, m')
    ensures m'.log == m.log + [Data(OnBody, body), MessageComplete(SnapshotOf(m.f))]
    ensures resets(m'.log) ==> m'.f == Init(m.f.typ)
    ensures !resets(m'.log) ==> m'.f == m.f.(state := NewMessage(m.f), contentLength := 0)
  {
    hide Step;
    RunBody(resets, m, body, |body|);
    assert body[..|body|] == body;
    m' := BodyRead(resets, m, body);
    var g := m.f.(contentLength := 0);
    CompletedLog(resets, Machine(To(g, NewMessage(To(g, MessageDone))), Push(m.log, Data(OnBody, body))));
    assert m'.log == m.log + [Data(OnBody, body)] + [MessageComplete(SnapshotOf(m.f))];
  }

  /** The headers, the empty line and the body of a message whose first line has been read. */
  lemma MessageTail(resets: Policy, m: Machine, hs: seq<Header>, body: string) returns (m': Machine)
    requires m.f.state.HeaderFieldStart? && m.f.flags == NO_FLAGS && m.f.contentLength == ULLONG_MAX && !m.f.verb.CONNECT?
    requires LegalHeaders(hs) && PlainHeaders(hs) && Announces(hs, m.f.typ, body)
    requires !EndsWith(m.log, OnHeaderField) && m.f.nread + |Lines(hs)| + 2 <= HTTP_MAX_HEADER_SIZE
    ensures Reads(resets, m, Lines(hs) + Crlf() + body, m')
    ensures m'.log == m.log + TailEvents(hs, body, SnapshotOf(m.f))
    ensures resets(m'.log) ==> m'.f == Init(m.f.typ)
    ensures !resets(m'.log) ==>
              && m'.f.state == NextState(m.f.typ, m.f.httpMajor, m.f.httpMinor, BlockFlags(NO_FLAGS, hs))
              && m'.f.nread == 0 && m'.f.typ == m.f.typ && m'.f.verb == m.f.verb && m'.f.errno == m.f.errno
              && m'.f.statusCode == m.f.statusCode
  {
    hide Step, Reads, Run, Push, LegalHeaders, PlainHeaders, BlockLength, BlockFlags, Crlf, Completed;
    var m1 := HeaderBlock(resets, m, hs);
    PlainFlags(NO_FLAGS, hs);
    CrlfEnds();
    var m2 := HeadEnd(resets, m1, Crlf());
    ReadsConcat(resets, m, Lines(hs), m1, Crlf(), m2);
    var g := HeadRead(m1.f);
    var log := m1.log + [HeadersComplete(FramingOf(g))];
    PushHeadersComplete(m1.log, FramingOf(g));
    assert FramingOf(g) == FramingFor(hs);
    NextIsNew(g);
    if body == "" {
      CompletedLog(resets, Machine(To(g, NewMessage(g)), log));
      m' := m2;
      assert Lines(hs) + Crlf() + body == Lines(hs) + Crlf();
      assert m'.log == m.log + TailEvents(hs, body, SnapshotOf(m.f));
    } else {
      NextIsNew(m2.f);
      m' := SizedBody(resets, m2, body);
      ReadsConcat(resets, m, Lines(hs) + Crlf(), m2, body, m');
      assert m'.log == m.log + TailEvents(hs, body, SnapshotOf(m.f));
    }
  }

  function RequestHead(v: Method, url: string, hs: seq<Header>): string {
    RequestLine(v, url) + Lines(hs) + Crlf()
  }

  function RequestEvents(v: Method, url: string, hs: seq<Header>, body: string, status: nat): seq<Event>
    requires LegalHeaders(hs)
  {
    [Data(OnUrl, url)] + TailEvents(hs, body, Snapshot(v, status, 1, 1))
  }

  predicate LegalRequest(v: Method, url: string, hs: seq<Header>, body: string) {
    && !v.CONNECT? && LegalUrl(url) && LegalHeaders(hs) && PlainHeaders(hs) && Announces(hs, Request, body)
    && |RequestHead(v, url, hs)| <= HTTP_MAX_HEADER_SIZE
  }

  /** A whole request: it is read to its last byte, makes exactly its callbacks, and if the completion
      callback resets the parser leaves it as a fresh one. */
  lemma RequestRead(resets: Policy, m: Machine, v: Method, url: string, hs: seq<Header>, body: string) returns (m': Machine)
    requires LegalRequest(v, url, hs, body)
    requires m.f.state.StartReq? && m.f.typ.Request? && m.f.nread == 0 && !EndsWith(m.log, OnUrl)
    ensures Reads(resets, m, RequestHead(v, url, hs) + body, m')
    ensures m'.log == m.log + RequestEvents(v, url, hs, body, m.f.statusCode)
    ensures resets(m'.log) ==> m'.f == Init(Request)
    ensures !resets(m'.log) ==>
              && m'.f.state == (if BlockFlags(NO_FLAGS, hs).close then Dead else StartReq)
              && m'.f.nread == 0 && m'.f.typ.Request? && m'.f.errno == m.f.errno && m'.f.statusCode == m.f.statusCode
  {
    hide Step, Reads, Run, LegalHeaders, PlainHeaders, Announces, RequestLine, LegalTarget, Lines, TailEvents;
    assert |Crlf()| == 2;
    hide Crlf;
    var m1 := RequestLineRead(resets, m, v, url);
    assert m1.log == m.log + [Data(OnUrl, url)];
    m' := MessageTail(resets, m1, hs, body);
    ReadsConcat(resets, m, RequestLine(v, url), m1, Lines(hs) + Crlf() + body, m');
    assert RequestLine(v, url) + (Lines(hs) + Crlf() + body) == RequestHead(v, url, hs) + body;
    assert m.log + [Data(OnUrl, url)] + TailEvents(hs, body, SnapshotOf(m1.f)) == m.log + RequestEvents(v, url, hs, body, m.f.statusCode);
  }

  function ResponseHead(major: nat, minor: nat, code: nat, phrase: string, hs: seq<Header>): string {
    StatusLine(major, minor, code, phrase) + Lines(hs) + Crlf()
  }

  predicate LegalResponse(major: nat, minor: nat, code: nat, phrase: string, hs: seq<Header>, body: string) {
    && major <= 999 && minor <= 999 && code <= 999 && LegalPhrase(phrase)
    && LegalHeaders(hs) && PlainHeaders(hs) && Announces(hs, Response, body)
    && |ResponseHead(major, minor, code, phrase, hs)| <= HTTP_MAX_HEADER_SIZE
  }

  /** A whole response with a length. */
  lemma ResponseRead(resets: Policy, m: Machine, major: nat, minor: nat, code: nat, phrase: string, hs: seq<Header>, body: string)
    returns (m': Machine)
    requires LegalResponse(major, minor, code, phrase, hs, body)
    requires m.f.state.StartRes? && m.f.typ.Response? && m.f.nread == 0 && !m.f.verb.CONNECT? && !EndsWith(m.log, OnHeaderField)
    ensures Reads(resets, m, ResponseHead(major, minor, code, phrase, hs) + body, m')
    ensures m'.log == m.log + TailEvents(hs, body, Snapshot(m.f.verb, code, major, minor))
    ensures resets(m'.log) ==> m'.f == Init(Response)
    ensures !resets(m'.log) ==>
              && m'.f.state == NextState(Response, major, minor, BlockFlags(NO_FLAGS, hs))
              && m'.f.nread == 0 && m'.f.typ.Response? && m'.f.verb == m.f.verb && m'.f.errno == m.f.errno
  {
    hide Step, Reads, Run, LegalHeaders, PlainHeaders, Announces, StatusLine, Lines, TailEvents, LegalPhrase;
    assert |Crlf()| == 2;
    hide Crlf;
    var m1 := StatusLineRead(resets, m, major, minor, code, phrase);
    m' := MessageTail(resets, m1, hs, body);
    var first := StatusLine(major, minor, code, phrase);
    ReadsConcat(resets, m, first, m1, Lines(hs) + Crlf() + body, m');
    assert first + (Lines(hs) + Crlf() + body) == ResponseHead(major, minor, code, phrase, hs) + body;
  }
}
