/** The state invariant of the parser: what holds of its fields between any two bytes while no error
    has occurred, and that no assert of the source fails from such a state. */
module Invariant {
  import opened Bytes
  import opened HttpTypes
  import opened Dispatch
  import opened EventLog
  import opened Machine

  /** How far a matcher over a header name can be: its next index stays inside the literal. */
  predicate NameIndex(h: HeaderState, i: nat) {
    && NameState(h)
    && i <= 17
    && (h.HC? ==> i == 0)
    && (h.HCO? ==> i == 1)
    && (h.HCON? ==> i == 2)
    && (h.HMatchingConnection? ==> i + 1 < Length(CONNECTION))
    && (h.HMatchingProxyConnection? ==> i + 1 < Length(PROXY_CONNECTION))
    && (h.HMatchingContentLength? ==> i + 1 < Length(CONTENT_LENGTH))
    && (h.HMatchingTransferEncoding? ==> i + 1 < Length(TRANSFER_ENCODING))
    && (h.HMatchingUpgrade? ==> i + 1 < Length(UPGRADE))
  }

  /** The header states that a value can be in, and how far its matcher can be. */
  predicate ValueIndex(h: HeaderState, i: nat) {
    && i <= 17
    && (h.HGeneral? || h.HContentLength?
        || h.HTransferEncodingChunked? || h.HConnectionKeepAlive? || h.HConnectionClose?
        || (h.HMatchingTransferEncodingChunked? && i + 1 < Length(CHUNKED))
        || (h.HMatchingConnectionKeepAlive? && i + 1 < Length(KEEP_ALIVE))
        || (h.HMatchingConnectionClose? && i + 1 < Length(CLOSE)))
  }

  predicate InHeaders(s: State) {
    s.HeaderFieldStart? || s.HeaderField? || s.HeaderValueStart? || s.HeaderValue?
    || s.HeaderAlmostDone? || s.HeaderValueLws? || s.HeadersAlmostDone?
  }

  /** The part that does not concern nread. */
  predicate Core(f: Fields) {
    && f.errno == HPE_OK
    && f.httpMajor <= 999 && f.httpMinor <= 999 && f.statusCode <= 999
    && f.contentLength <= ULLONG_MAX
    && f.index <= 17
    && (f.state.ReqMethod? ==> 1 <= f.index <= |MethodString(f.verb)|)
    && (f.state.HeaderField? ==> NameIndex(f.headerState, f.index))
    && (f.state.HeaderValue? ==> ValueIndex(f.headerState, f.index))
    && (f.flags.trailing ==> f.flags.chunked && (InHeaders(f.state) || MessageStart(f.state)))
    && (ChunkSizeState(f.state) || ChunkEndState(f.state) || f.state.ChunkData? ==> f.flags.chunked)
    && (ChunkSizeState(f.state) && !f.state.ChunkSizeStart? ==> f.contentLength < ULLONG_MAX)
    && (f.state.ChunkData? || f.state.BodyIdentity? ==> 0 < f.contentLength < ULLONG_MAX)
    && (f.state.ChunkDataAlmostDone? || f.state.MessageDone? ==> f.contentLength == 0)
  }

  /** Between two bytes. */
  predicate Inv(f: Fields) {
    Core(f) && f.nread <= HTTP_MAX_HEADER_SIZE && (f.state.ChunkSizeStart? ==> f.nread == 0)
  }

  /** Where a byte is dispatched: nread already counts it. */
  predicate Ready(f: Fields) {
    Core(f) && f.nread <= HTTP_MAX_HEADER_SIZE && (f.state.ChunkSizeStart? ==> f.nread == 1)
  }

  predicate Kept(a: Action) {
    && !a.exit.Abort?
    && (a.exit.Break? || a.exit.Return? ==> Inv(a.f))
    && (a.exit.Reexecute? ==> Ready(a.f))
  }

  lemma KeepsDead(f: Fields, ch: char)
    requires Ready(f) && f.state.Dead?
    ensures Kept(SwitchDead(f, ch))
  {
    hide Shape, Text;
  }

  lemma KeepsResponseStart(f: Fields, ch: char)
    requires Ready(f) && ResponseStartState(f.state)
    ensures Kept(SwitchResponseStart(f, ch))
  {
    hide Shape, Text;
  }

  lemma KeepsResponseVersion(f: Fields, ch: char)
    requires Ready(f) && ResponseVersionState(f.state)
    ensures Kept(SwitchResponseVersion(f, ch))
  {
    hide Shape, Text;
  }

  lemma KeepsStatusLine(f: Fields, ch: char)
    requires Ready(f) && StatusLineState(f.state)
    ensures Kept(SwitchStatusLine(f, ch))
  {
    hide Shape, Text;
  }

  lemma KeepsStartReq(f: Fields, ch: char)
    requires Ready(f) && f.state.StartReq?
    ensures Kept(SwitchStartReq(f, ch))
  {
    hide Shape, Text;
  }

  lemma KeepsMethod(f: Fields, ch: char)
    requires Ready(f) && f.state.ReqMethod?
    ensures Kept(SwitchMethod(f, ch))
  {
    hide Shape, Text;
  }

  lemma KeepsUrlStart(f: Fields, ch: char)
    requires Ready(f) && f.state.ReqSpacesBeforeUrl?
    ensures Kept(SwitchUrlStart(f, ch))
  {
    hide Shape, Text;
  }

  lemma KeepsUrl(f: Fields, ch: char)
    requires Ready(f) && ReadsUrl(f.state)
    ensures Kept(SwitchUrl(f, ch))
  {
    hide Shape, Text;
  }

  lemma KeepsRequestHttp(f: Fields, ch: char)
    requires Ready(f) && RequestHttpState(f.state)
    ensures Kept(SwitchRequestHttp(f, ch))
  {
    hide Shape, Text;
  }

  lemma KeepsRequestVersion(f: Fields, ch: char)
    requires Ready(f) && RequestVersionState(f.state)
    ensures Kept(SwitchRequestVersion(f, ch))
  {
    hide Shape, Text;
  }

  lemma KeepsFieldStart(f: Fields, ch: char)
    requires Ready(f) && f.state.HeaderFieldStart?
    ensures Kept(SwitchFieldStart(f, ch))
  {
    hide Shape, Text;
  }

  lemma KeepsNameIndex(f: Fields, ch: char)
    requires NameIndex(f.headerState, f.index)
    ensures var r := SwitchFieldName(f, ch); NameIndex(r.headerState, r.index)
  {
    hide Text, Token;
  }

  lemma KeepsField(f: Fields, ch: char)
    requires Ready(f) && f.state.HeaderField?
    ensures Kept(SwitchField(f, ch))
  {
    hide Shape, NameIndex, SwitchFieldName;
    KeepsNameIndex(f, ch);
    assert NameState(f.headerState) && f.index <= 17 by { NameIndexBounds(f.headerState, f.index); }
    var r := SwitchFieldName(f, ch);
    NameIndexBounds(r.headerState, r.index);
  }

  lemma NameIndexBounds(h: HeaderState, i: nat)
    requires NameIndex(h, i)
    ensures NameState(h) && i <= 17
  {
  }

  lemma KeepsValueStart(f: Fields, ch: char)
    requires Ready(f) && f.state.HeaderValueStart?
    ensures Kept(SwitchValueStart(f, ch))
  {
    hide Shape, Text, FirstValueState, ValueIndex, NameIndex, ChunkSizeState, ChunkEndState;
    FirstValueIndex(f.headerState, ch);
    assert !f.state.HeaderValue? && !ChunkSizeState(f.state) && !ChunkEndState(f.state) by { ValueStartIs(f.state); }
    ValueStartIs(SwitchValueStart(f, ch).f.state);
  }

  lemma ValueStartIs(s: State)
    ensures InHeaders(s) ==> !ChunkSizeState(s) && !ChunkEndState(s)
  {
  }

  lemma FirstValueIndex(h: HeaderState, ch: char)
    ensures ValueIndex(FirstValueState(h, ch), 0)
  {
    hide Lower;
  }

  lemma KeepsValueIndex(f: Fields, ch: char)
    requires ValueIndex(f.headerState, f.index)
    ensures var r := SwitchValueText(f, ch); ValueIndex(r.headerState, r.index) && r.index <= 17
  {
    hide Lower, Text;
  }

  lemma ShiftBound(n: nat, base: nat, d: nat)
    ensures Shift64(n, base, d).Some? ==> Shift64(n, base, d).value <= ULLONG_MAX
  {
  }

  lemma KeepsValue(f: Fields, ch: char)
    requires Ready(f) && f.state.HeaderValue?
    ensures Kept(SwitchValue(f, ch))
  {
    hide Shape, Text, SwitchValueText, ValueIndex, NameIndex, Shift64;
    KeepsValueIndex(f, ch);
    assert !f.headerState.HConnection? && !f.headerState.HTransferEncoding? by { ValueStates(f.headerState, f.index); }
    if IsNum(ch) {
      ShiftBound(f.contentLength, 10, Digit(ch));
    }
  }

  lemma ValueStates(h: HeaderState, i: nat)
    requires ValueIndex(h, i)
    ensures !h.HConnection? && !h.HTransferEncoding?
  {
  }

  lemma KeepsHeaderEnd(f: Fields, ch: char)
    requires Ready(f) && HeaderEndState(f.state)
    ensures Kept(SwitchHeaderEnd(f, ch))
  {
    hide Shape, Text;
  }

  lemma KeepsHeadersDone(f: Fields, ch: char)
    requires Ready(f) && f.state.HeadersDone?
    ensures Kept(SwitchHeadersDone(f, ch))
  {
    hide Shape, Text;
  }

  lemma KeepsChunkSize(f: Fields, ch: char)
    requires Ready(f) && ChunkSizeState(f.state)
    ensures Kept(SwitchChunkSize(f, ch))
  {
    hide Shape, Text;
  }

  lemma KeepsChunkEnd(f: Fields, ch: char)
    requires Ready(f) && ChunkEndState(f.state)
    ensures Kept(SwitchChunkEnd(f, ch))
  {
    hide Shape, Text;
  }

  lemma KeepsBody(f: Fields, ch: char)
    requires Ready(f) && ReadsBody(f.state)
    ensures Kept(SwitchBody(f, ch))
  {
    hide Shape, Text;
  }

  lemma KeepsMessageDone(f: Fields, ch: char)
    requires Ready(f) && f.state.MessageDone?
    ensures Kept(SwitchMessageDone(f, ch))
  {
    hide Shape, Text;
  }

  /** No assert fires at a dispatch, and the invariant is kept. */
  lemma SwitchKeeps(f: Fields, ch: char)
    requires Ready(f)
    ensures Kept(Switch(f, ch))
  {
    hide Kept, Ready, Shape;
    hide SwitchDead, SwitchResponseStart, SwitchResponseVersion, SwitchStatusLine, SwitchStartReq,
      SwitchMethod, SwitchUrlStart, SwitchUrl, SwitchRequestHttp, SwitchRequestVersion, SwitchFieldStart,
      SwitchField, SwitchValueStart, SwitchValue, SwitchHeaderEnd, SwitchHeadersDone, SwitchChunkSize,
      SwitchChunkEnd, SwitchBody, SwitchMessageDone;
    if f.state.Dead? { Opened(f, ch); KeepsDead(f, ch); }
    else if ResponseStartState(f.state) { Opened(f, ch); KeepsResponseStart(f, ch); }
    else if ResponseVersionState(f.state) { Opened(f, ch); KeepsResponseVersion(f, ch); }
    else if StatusLineState(f.state) { Opened(f, ch); KeepsStatusLine(f, ch); }
    else if f.state.StartReq? { Opened(f, ch); KeepsStartReq(f, ch); }
    else if f.state.ReqMethod? { Opened(f, ch); KeepsMethod(f, ch); }
    else if f.state.ReqSpacesBeforeUrl? { Opened(f, ch); KeepsUrlStart(f, ch); }
    else if ReadsUrl(f.state) { Opened(f, ch); KeepsUrl(f, ch); }
    else if RequestHttpState(f.state) { Opened(f, ch); KeepsRequestHttp(f, ch); }
    else if RequestVersionState(f.state) { Opened(f, ch); KeepsRequestVersion(f, ch); }
    else if f.state.HeaderFieldStart? { Opened(f, ch); KeepsFieldStart(f, ch); }
    else if f.state.HeaderField? { Opened(f, ch); KeepsField(f, ch); }
    else if f.state.HeaderValueStart? { Opened(f, ch); KeepsValueStart(f, ch); }
    else if f.state.HeaderValue? { Opened(f, ch); KeepsValue(f, ch); }
    else if HeaderEndState(f.state) { Opened(f, ch); KeepsHeaderEnd(f, ch); }
    else if f.state.HeadersDone? { Opened(f, ch); KeepsHeadersDone(f, ch); }
    else if ChunkSizeState(f.state) { Opened(f, ch); KeepsChunkSize(f, ch); }
    else if ChunkEndState(f.state) { Opened(f, ch); KeepsChunkEnd(f, ch); }
    else if ReadsBody(f.state) { Opened(f, ch); KeepsBody(f, ch); }
    else { Opened(f, ch); KeepsMessageDone(f, ch); }
  }

  lemma {:induction false} DispatchedKeeps(resets: Policy, m: Machine, ch: char)
    requires Ready(m.f)
    ensures var (m', v) := Dispatched(resets, m, ch);
      !v.Aborted? && (v.Going? || v.Left? ==> Inv(m'.f)) && (v.Failed? ==> m'.f.errno != HPE_OK)
    decreases Rank(m.f.state)
  {
    hide Switch, Emit, Push, Inv, Ready;
    SwitchKeeps(m.f, ch);
    var a := Switch(m.f, ch);
    InitInv(m.f.typ);
    if a.exit.Reexecute? {
      var log := Emit(m.log, m.f.state, a, ch);
      DispatchedKeeps(resets, Machine(a.f, if a.notice.NotifyHeadersComplete? then Push(log, HeadersComplete(FramingOf(a.f))) else log), ch);
    }
  }

  lemma InitInv(t: Type)
    ensures Inv(Init(t))
  {
  }

  /** One byte of the loop: no assert fires, and the invariant is kept unless an error is set. */
  lemma StepKeeps(resets: Policy, m: Machine, ch: char)
    requires Inv(m.f)
    ensures var (m', v) := Step(resets, m, ch);
      !v.Aborted? && (v.Going? || v.Left? ==> Inv(m'.f)) && (v.Failed? ==> m'.f.errno != HPE_OK)
  {
    hide Dispatched;
    if !ParsingHeader(m.f.state) {
      DispatchedKeeps(resets, m, ch);
    } else if m.f.nread + 1 <= HTTP_MAX_HEADER_SIZE {
      DispatchedKeeps(resets, m.(f := m.f.(nread := m.f.nread + 1)), ch);
    }
  }

  /** Over every run from every reachable state: no assert of the source fails, the invariant is kept
      unless an error is set, and a failed run has its error number. */
  lemma {:induction false} RunKeeps(resets: Policy, m: Machine, data: string)
    requires Inv(m.f)
    ensures var r := Run(resets, m, data);
      && !r.verdict.Aborted?
      && (r.verdict.Going? || r.verdict.Left? ==> Inv(r.m.f))
      && (r.verdict.Failed? ==> r.m.f.errno != HPE_OK)
    decreases |data|
  {
    hide Step, Inv;
    if data != "" {
      StepKeeps(resets, m, data[0]);
      var (m', v) := Step(resets, m, data[0]);
      if v.Going? {
        RunKeeps(resets, m', data[1..]);
      }
    }
  }
}
