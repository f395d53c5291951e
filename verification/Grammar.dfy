/** The grammar of callbacks: for every message a URL, header fields and values, the end of the
    headers, exactly the body that the headers announced, trailing fields only after a chunked
    body, and the end of the message.  Every log of every run obeys it. */
module Grammar {
  import opened Bytes
  import opened HttpTypes
  import opened Dispatch
  import opened EventLog
  import opened Machine
  import opened Invariant

  datatype Phase =
    | Between
    | InUrl
    | InField
    | InValue
    | InBody(framing: Framing, got: nat)
    | InTrailerField
    | InTrailerValue
    | Wrong

  predicate Heading(p: Phase) {
    p.Between? || p.InUrl? || p.InField? || p.InValue?
  }

  /** Body bytes may follow, `n` of them in all at most. */
  predicate Room(framing: Framing, n: nat) {
    match framing
    case NoBody => false
    case Sized(len) => n <= len
    case Chunked => true
    case UntilEof => true
  }

  predicate BodyIsWhole(framing: Framing, n: nat) {
    match framing
    case NoBody => n == 0
    case Sized(len) => n == len
    case Chunked => true
    case UntilEof => false
  }

  function NextPhase(p: Phase, e: Event): Phase {
    match e
    case Data(k, s) => NextData(p, k, s)
    case HeadersComplete(framing) => if Heading(p) then InBody(framing, 0) else Wrong
    case MessageComplete(_) =>
      if p.InTrailerField? || p.InTrailerValue? || (p.InBody? && BodyIsWhole(p.framing, p.got)) then Between else Wrong
  }

  function NextData(p: Phase, k: Kind, s: string): Phase {
    match k
    case OnUrl => if p.Between? || p.InUrl? then InUrl else Wrong
    case OnHeaderField =>
      if Heading(p) then InField
      else if p.InTrailerField? || p.InTrailerValue? || (p.InBody? && p.framing.Chunked?) then InTrailerField
      else Wrong
    case OnHeaderValue =>
      if p.InField? || p.InValue? then InValue
      else if p.InTrailerField? || p.InTrailerValue? then InTrailerValue
      else Wrong
    case OnBody =>
      if p.InBody? && Room(p.framing, p.got + |s|) then InBody(p.framing, p.got + |s|) else Wrong
  }

  /** The phase that a sequence of callbacks, joined or in pieces, leads to. */
  function PhaseOf(events: seq<Event>): Phase {
    if events == [] then Between else NextPhase(PhaseOf(events[..|events| - 1]), events[|events| - 1])
  }

  lemma NextPieces(p: Phase, k: Kind, x: string, y: string)
    ensures NextPhase(NextPhase(p, Data(k, x)), Data(k, y)) == NextPhase(p, Data(k, x + y))
  {
  }

  lemma PhasePush(log: Log, e: Event)
    ensures PhaseOf(Push(log, e)) == NextPhase(PhaseOf(log), e)
  {
    var r := Push(log, e);
    if e.Data? && EndsWith(log, e.kind) {
      NextPieces(PhaseOf(log[..|log| - 1]), e.kind, log[|log| - 1].bytes, e.bytes);
      assert r[..|r| - 1] == log[..|log| - 1];
    } else {
      assert r[..|r| - 1] == log;
    }
  }

  /** Joining pieces does not change the phase. */
  lemma {:induction false} PhaseJoin(trace: seq<Event>)
    ensures PhaseOf(Join(trace)) == PhaseOf(trace)
    decreases |trace|
  {
    hide Push, NextPhase;
    if trace != [] {
      PhaseJoin(trace[..|trace| - 1]);
      PhasePush(Join(trace[..|trace| - 1]), trace[|trace| - 1]);
    }
  }

  predicate InHeadersFits(s: State, p: Phase) {
    && Heading(p)
    && (s.HeaderField? ==> p.InField?)
    && (s.HeaderValue? ==> p.InValue?)
    && (s.HeaderValueStart? || s.HeaderAlmostDone? || s.HeaderValueLws? ==> p.InField? || p.InValue?)
  }

  predicate InTrailersFits(s: State, p: Phase) {
    && (p.InTrailerField? || p.InTrailerValue? || (p.InBody? && p.framing.Chunked?))
    && (s.HeaderField? ==> p.InTrailerField?)
    && (s.HeaderValue? ==> p.InTrailerValue?)
    && (s.HeaderValueStart? || s.HeaderAlmostDone? || s.HeaderValueLws? ==> !p.InBody?)
  }

  /** The phases that fit the parser's fields; a sized body has its remaining length still to come. */
  predicate Fits(f: Fields, p: Phase) {
    if InHeaders(f.state) then
      if f.flags.trailing then InTrailersFits(f.state, p) else InHeadersFits(f.state, p)
    else if ReadsUrl(f.state) || RequestHttpState(f.state) || RequestVersionState(f.state) then p.InUrl?
    else if f.state.HeadersDone? then p == InBody(FramingOf(f), 0)
    else if f.state.BodyIdentity? || f.state.MessageDone? then
      p.InBody? && p.framing.Sized? && p.got + f.contentLength == p.framing.length
    else if f.state.BodyIdentityEof? then p.InBody? && p.framing.UntilEof?
    else if ChunkSizeState(f.state) || ChunkEndState(f.state) || f.state.ChunkData? then
      p.InBody? && p.framing.Chunked?
    else p.Between?
  }

  function AfterPhase(p: Phase, s: State, a: Action, ch: char): Phase {
    var q := if DataOf(s, a, ch).Some? then NextPhase(p, DataOf(s, a, ch).value) else p;
    match a.notice
    case Silent => q
    case NotifyHeadersComplete => NextPhase(q, HeadersComplete(FramingOf(a.f)))
    case NotifyMessageComplete => NextPhase(q, MessageComplete(SnapshotOf(a.f)))
  }

  lemma FitsDead(f: Fields, p: Phase, ch: char)
    requires Ready(f) && f.state.Dead? && Fits(f, p)
    ensures var a := SwitchDead(f, ch); a.exit.Error? || a.exit.Abort? || Fits(a.f, AfterPhase(p, f.state, a, ch))
  {
    hide Shape, Text, NameIndex, ValueIndex, SwitchFieldName, SwitchValueText;
  }

  predicate Plain(s: State) {
    ResponseStartState(s) || ResponseVersionState(s) || StatusLineState(s)
  }

  lemma StaysBetween(f: Fields, p: Phase, a: Action, ch: char)
    requires Plain(f.state) && Fits(f, p) && Plain(a.f.state) && a.mark.None? && a.flush.None? && a.notice.Silent?
    ensures Fits(a.f, AfterPhase(p, f.state, a, ch))
  {
  }

  lemma EntersHeaders(f: Fields, p: Phase, a: Action, ch: char)
    requires Plain(f.state) && Fits(f, p) && a.f.state.HeaderFieldStart? && !a.f.flags.trailing
    requires a.mark.None? && a.flush.None? && a.notice.Silent?
    ensures Fits(a.f, AfterPhase(p, f.state, a, ch))
  {
  }

  lemma FitsResponseStart(f: Fields, p: Phase, ch: char)
    requires Ready(f) && ResponseStartState(f.state) && Fits(f, p)
    ensures var a := SwitchResponseStart(f, ch); a.exit.Error? || a.exit.Abort? || Fits(a.f, AfterPhase(p, f.state, a, ch))
  {
    hide Shape, Text, NameIndex, ValueIndex, SwitchFieldName, SwitchValueText, Fits, AfterPhase;
    var a := SwitchResponseStart(f, ch);
    if Plain(a.f.state) {
      StaysBetween(f, p, a, ch);
    }
  }

  lemma FitsResponseVersion(f: Fields, p: Phase, ch: char)
    requires Ready(f) && ResponseVersionState(f.state) && Fits(f, p)
    ensures var a := SwitchResponseVersion(f, ch); a.exit.Error? || a.exit.Abort? || Fits(a.f, AfterPhase(p, f.state, a, ch))
  {
    hide Shape, Text, NameIndex, ValueIndex, SwitchFieldName, SwitchValueText, Fits, AfterPhase;
    var a := SwitchResponseVersion(f, ch);
    if Plain(a.f.state) {
      StaysBetween(f, p, a, ch);
    }
  }

  lemma FitsStatusLine(f: Fields, p: Phase, ch: char)
    requires Ready(f) && StatusLineState(f.state) && Fits(f, p)
    ensures var a := SwitchStatusLine(f, ch); a.exit.Error? || a.exit.Abort? || Fits(a.f, AfterPhase(p, f.state, a, ch))
  {
    hide Shape, Text, NameIndex, ValueIndex, SwitchFieldName, SwitchValueText, Fits, AfterPhase;
    var a := SwitchStatusLine(f, ch);
    if Plain(a.f.state) {
      StaysBetween(f, p, a, ch);
    } else if a.f.state.HeaderFieldStart? {
      EntersHeaders(f, p, a, ch);
    }
  }

  lemma FitsStartReq(f: Fields, p: Phase, ch: char)
    requires Ready(f) && f.state.StartReq? && Fits(f, p)
    ensures var a := SwitchStartReq(f, ch); a.exit.Error? || a.exit.Abort? || Fits(a.f, AfterPhase(p, f.state, a, ch))
  {
    hide Shape, Text, NameIndex, ValueIndex, SwitchFieldName, SwitchValueText;
  }

  lemma FitsMethod(f: Fields, p: Phase, ch: char)
    requires Ready(f) && f.state.ReqMethod? && Fits(f, p)
    ensures var a := SwitchMethod(f, ch); a.exit.Error? || a.exit.Abort? || Fits(a.f, AfterPhase(p, f.state, a, ch))
  {
    hide Shape, Text, NameIndex, ValueIndex, SwitchFieldName, SwitchValueText;
  }

  lemma FitsUrlStart(f: Fields, p: Phase, ch: char)
    requires Ready(f) && f.state.ReqSpacesBeforeUrl? && Fits(f, p)
    ensures var a := SwitchUrlStart(f, ch); a.exit.Error? || a.exit.Abort? || Fits(a.f, AfterPhase(p, f.state, a, ch))
  {
    hide Shape, Text, NameIndex, ValueIndex, SwitchFieldName, SwitchValueText;
  }

  lemma FitsUrl(f: Fields, p: Phase, ch: char)
    requires Ready(f) && ReadsUrl(f.state) && Fits(f, p)
    ensures var a := SwitchUrl(f, ch); a.exit.Error? || a.exit.Abort? || Fits(a.f, AfterPhase(p, f.state, a, ch))
  {
    hide Shape, Text, NameIndex, ValueIndex, SwitchFieldName, SwitchValueText;
  }

  lemma FitsRequestHttp(f: Fields, p: Phase, ch: char)
    requires Ready(f) && RequestHttpState(f.state) && Fits(f, p)
    ensures var a := SwitchRequestHttp(f, ch); a.exit.Error? || a.exit.Abort? || Fits(a.f, AfterPhase(p, f.state, a, ch))
  {
    hide Shape, Text, NameIndex, ValueIndex, SwitchFieldName, SwitchValueText;
  }

  lemma FitsRequestVersion(f: Fields, p: Phase, ch: char)
    requires Ready(f) && RequestVersionState(f.state) && Fits(f, p)
    ensures var a := SwitchRequestVersion(f, ch); a.exit.Error? || a.exit.Abort? || Fits(a.f, AfterPhase(p, f.state, a, ch))
  {
    hide Shape, Text, NameIndex, ValueIndex, SwitchFieldName, SwitchValueText;
  }

  lemma FitsFieldStart(f: Fields, p: Phase, ch: char)
    requires Ready(f) && f.state.HeaderFieldStart? && Fits(f, p)
    ensures var a := SwitchFieldStart(f, ch); a.exit.Error? || a.exit.Abort? || Fits(a.f, AfterPhase(p, f.state, a, ch))
  {
    hide Shape, Text, NameIndex, ValueIndex, SwitchFieldName, SwitchValueText;
  }

  lemma FitsField(f: Fields, p: Phase, ch: char)
    requires Ready(f) && f.state.HeaderField? && Fits(f, p)
    ensures var a := SwitchField(f, ch); a.exit.Error? || a.exit.Abort? || Fits(a.f, AfterPhase(p, f.state, a, ch))
  {
    hide Shape, Text, NameIndex, ValueIndex, SwitchFieldName, SwitchValueText;
  }

  lemma FitsValueStart(f: Fields, p: Phase, ch: char)
    requires Ready(f) && f.state.HeaderValueStart? && Fits(f, p)
    ensures var a := SwitchValueStart(f, ch); a.exit.Error? || a.exit.Abort? || Fits(a.f, AfterPhase(p, f.state, a, ch))
  {
    hide Shape, Text, NameIndex, ValueIndex, SwitchFieldName, SwitchValueText;
  }

  lemma FitsValue(f: Fields, p: Phase, ch: char)
    requires Ready(f) && f.state.HeaderValue? && Fits(f, p)
    ensures var a := SwitchValue(f, ch); a.exit.Error? || a.exit.Abort? || Fits(a.f, AfterPhase(p, f.state, a, ch))
  {
    hide Shape, Text, NameIndex, ValueIndex, SwitchFieldName, SwitchValueText;
  }

  lemma FitsHeaderEnd(f: Fields, p: Phase, ch: char)
    requires Ready(f) && HeaderEndState(f.state) && Fits(f, p)
    ensures var a := SwitchHeaderEnd(f, ch); a.exit.Error? || a.exit.Abort? || Fits(a.f, AfterPhase(p, f.state, a, ch))
  {
    hide Shape, Text, NameIndex, ValueIndex, SwitchFieldName, SwitchValueText;
  }

  lemma FitsHeadersDone(f: Fields, p: Phase, ch: char)
    requires Ready(f) && f.state.HeadersDone? && Fits(f, p)
    ensures var a := SwitchHeadersDone(f, ch); a.exit.Error? || a.exit.Abort? || Fits(a.f, AfterPhase(p, f.state, a, ch))
  {
    hide Shape, Text, NameIndex, ValueIndex, SwitchFieldName, SwitchValueText;
  }

  lemma FitsChunkSize(f: Fields, p: Phase, ch: char)
    requires Ready(f) && ChunkSizeState(f.state) && Fits(f, p)
    ensures var a := SwitchChunkSize(f, ch); a.exit.Error? || a.exit.Abort? || Fits(a.f, AfterPhase(p, f.state, a, ch))
  {
    hide Shape, Text, NameIndex, ValueIndex, SwitchFieldName, SwitchValueText;
  }

  lemma FitsChunkEnd(f: Fields, p: Phase, ch: char)
    requires Ready(f) && ChunkEndState(f.state) && Fits(f, p)
    ensures var a := SwitchChunkEnd(f, ch); a.exit.Error? || a.exit.Abort? || Fits(a.f, AfterPhase(p, f.state, a, ch))
  {
    hide Shape, Text, NameIndex, ValueIndex, SwitchFieldName, SwitchValueText;
  }

  lemma FitsBody(f: Fields, p: Phase, ch: char)
    requires Ready(f) && ReadsBody(f.state) && Fits(f, p)
    ensures var a := SwitchBody(f, ch); a.exit.Error? || a.exit.Abort? || Fits(a.f, AfterPhase(p, f.state, a, ch))
  {
    hide Shape, Text, NameIndex, ValueIndex, SwitchFieldName, SwitchValueText;
  }

  lemma FitsMessageDone(f: Fields, p: Phase, ch: char)
    requires Ready(f) && f.state.MessageDone? && Fits(f, p)
    ensures var a := SwitchMessageDone(f, ch); a.exit.Error? || a.exit.Abort? || Fits(a.f, AfterPhase(p, f.state, a, ch))
  {
    hide Shape, Text, NameIndex, ValueIndex, SwitchFieldName, SwitchValueText;
  }

  lemma SwitchFits(f: Fields, p: Phase, ch: char)
    requires Ready(f) && Fits(f, p)
    ensures var a := Switch(f, ch); a.exit.Error? || a.exit.Abort? || Fits(a.f, AfterPhase(p, f.state, a, ch))
  {
    hide Fits, AfterPhase, Ready, Shape;
    hide SwitchDead, SwitchResponseStart, SwitchResponseVersion, SwitchStatusLine, SwitchStartReq,
      SwitchMethod, SwitchUrlStart, SwitchUrl, SwitchRequestHttp, SwitchRequestVersion, SwitchFieldStart,
      SwitchField, SwitchValueStart, SwitchValue, SwitchHeaderEnd, SwitchHeadersDone, SwitchChunkSize,
      SwitchChunkEnd, SwitchBody, SwitchMessageDone;
    if f.state.Dead? { Opened(f, ch); FitsDead(f, p, ch); }
    else if ResponseStartState(f.state) { Opened(f, ch); FitsResponseStart(f, p, ch); }
    else if ResponseVersionState(f.state) { Opened(f, ch); FitsResponseVersion(f, p, ch); }
    else if StatusLineState(f.state) { Opened(f, ch); FitsStatusLine(f, p, ch); }
    else if f.state.StartReq? { Opened(f, ch); FitsStartReq(f, p, ch); }
    else if f.state.ReqMethod? { Opened(f, ch); FitsMethod(f, p, ch); }
    else if f.state.ReqSpacesBeforeUrl? { Opened(f, ch); FitsUrlStart(f, p, ch); }
    else if ReadsUrl(f.state) { Opened(f, ch); FitsUrl(f, p, ch); }
    else if RequestHttpState(f.state) { Opened(f, ch); FitsRequestHttp(f, p, ch); }
    else if RequestVersionState(f.state) { Opened(f, ch); FitsRequestVersion(f, p, ch); }
    else if f.state.HeaderFieldStart? { Opened(f, ch); FitsFieldStart(f, p, ch); }
    else if f.state.HeaderField? { Opened(f, ch); FitsField(f, p, ch); }
    else if f.state.HeaderValueStart? { Opened(f, ch); FitsValueStart(f, p, ch); }
    else if f.state.HeaderValue? { Opened(f, ch); FitsValue(f, p, ch); }
    else if HeaderEndState(f.state) { Opened(f, ch); FitsHeaderEnd(f, p, ch); }
    else if f.state.HeadersDone? { Opened(f, ch); FitsHeadersDone(f, p, ch); }
    else if ChunkSizeState(f.state) { Opened(f, ch); FitsChunkSize(f, p, ch); }
    else if ChunkEndState(f.state) { Opened(f, ch); FitsChunkEnd(f, p, ch); }
    else if ReadsBody(f.state) { Opened(f, ch); FitsBody(f, p, ch); }
    else { Opened(f, ch); FitsMessageDone(f, p, ch); }
  }

  lemma InitFits(t: Type)
    ensures Fits(Init(t), Between)
  {
  }

  /** What one dispatch adds to the log takes the phase along. */
  lemma EmitPhase(log: Log, s: State, a: Action, ch: char)
    ensures var l := Emit(log, s, a, ch);
      PhaseOf(match a.notice
              case Silent => l
              case NotifyHeadersComplete => Push(l, HeadersComplete(FramingOf(a.f)))
              case NotifyMessageComplete => Push(l, MessageComplete(SnapshotOf(a.f))))
      == AfterPhase(PhaseOf(log), s, a, ch)
  {
    hide Push, NextPhase, PhaseOf, DataOf;
    var l := Emit(log, s, a, ch);
    if DataOf(s, a, ch).Some? {
      PhasePush(log, DataOf(s, a, ch).value);
    }
    PhasePush(l, HeadersComplete(FramingOf(a.f)));
    PhasePush(l, MessageComplete(SnapshotOf(a.f)));
  }

  lemma WrongStays(p: Phase, e: Event)
    requires p.Wrong?
    ensures NextPhase(p, e).Wrong?
  {
  }

  /** At every moment the callbacks made so far obey the grammar. */
  ghost predicate Grammatical(events: seq<Event>) {
    forall i | 0 <= i <= |events| :: !PhaseOf(events[..i]).Wrong?
  }

  lemma {:induction false} PrefixFits(events: seq<Event>, i: nat)
    requires i <= |events| && !PhaseOf(events).Wrong?
    ensures !PhaseOf(events[..i]).Wrong?
    decreases |events| - i
  {
    hide NextPhase;
    if i == |events| {
      assert events[..i] == events;
    } else {
      PrefixFits(events, i + 1);
      assert events[..i + 1][..i] == events[..i];
      if PhaseOf(events[..i]).Wrong? {
        WrongStays(PhaseOf(events[..i]), events[i]);
      }
    }
  }

  lemma AtEveryMoment(events: seq<Event>)
    requires !PhaseOf(events).Wrong?
    ensures Grammatical(events)
  {
    forall i | 0 <= i <= |events| ensures !PhaseOf(events[..i]).Wrong? {
      PrefixFits(events, i);
    }
  }

  lemma FitsNotWrong(f: Fields, p: Phase)
    requires Fits(f, p)
    ensures !p.Wrong?
  {
  }

  /** After a completed message the callback may have reset the parser: both fit. */
  lemma CompletedFits(f: Fields, p: Phase)
    requires MessageStart(f.state) && Fits(f, p)
    ensures p == Between
  {
  }

  lemma CompletesAtStart(f: Fields, ch: char)
    ensures Switch(f, ch).notice.NotifyMessageComplete? ==> MessageStart(Switch(f, ch).f.state)
  {
    hide Switch;
  }

  ghost predicate StillFits(m: Machine, v: Verdict) {
    && !PhaseOf(m.log).Wrong?
    && (v.Going? || v.Left? ==> Fits(m.f, PhaseOf(m.log)))
  }

  lemma {:induction false} DispatchedFits(resets: Policy, m: Machine, ch: char)
    requires Ready(m.f) && Fits(m.f, PhaseOf(m.log))
    ensures var (m', v) := Dispatched(resets, m, ch); StillFits(m', v)
    decreases Rank(m.f.state)
  {
    hide Switch, Emit, Push, Inv, Ready, Fits, AfterPhase, PhaseOf;
    var a := Switch(m.f, ch);
    SwitchKeeps(m.f, ch);
    SwitchFits(m.f, PhaseOf(m.log), ch);
    FitsNotWrong(m.f, PhaseOf(m.log));
    if a.exit.Error? {
    } else {
      EmitPhase(m.log, m.f.state, a, ch);
      FitsNotWrong(a.f, AfterPhase(PhaseOf(m.log), m.f.state, a, ch));
      var log := Emit(m.log, m.f.state, a, ch);
      if a.exit.Reexecute? {
        DispatchedFits(resets, Machine(a.f, if a.notice.NotifyHeadersComplete? then Push(log, HeadersComplete(FramingOf(a.f))) else log), ch);
      } else if a.notice.NotifyMessageComplete? {
        CompletesAtStart(m.f, ch);
        CompletedFits(a.f, AfterPhase(PhaseOf(m.log), m.f.state, a, ch));
        InitFits(a.f.typ);
      }
    }
  }

  lemma StepFits(resets: Policy, m: Machine, ch: char)
    requires Inv(m.f) && Fits(m.f, PhaseOf(m.log))
    ensures var (m', v) := Step(resets, m, ch); StillFits(m', v)
  {
    hide Dispatched, PhaseOf, NextPhase;
    FitsNotWrong(m.f, PhaseOf(m.log));
    if !ParsingHeader(m.f.state) {
      DispatchedFits(resets, m, ch);
    } else if m.f.nread + 1 <= HTTP_MAX_HEADER_SIZE {
      DispatchedFits(resets, m.(f := m.f.(nread := m.f.nread + 1)), ch);
    }
  }

  lemma {:induction false} RunFits(resets: Policy, m: Machine, data: string)
    requires Inv(m.f) && Fits(m.f, PhaseOf(m.log))
    ensures var r := Run(resets, m, data); StillFits(r.m, r.verdict)
    decreases |data|
  {
    hide Step, Inv, Fits, PhaseOf;
    FitsNotWrong(m.f, PhaseOf(m.log));
    if data != "" {
      StepKeeps(resets, m, data[0]);
      StepFits(resets, m, data[0]);
      var (m', v) := Step(resets, m, data[0]);
      if v.Going? {
        RunFits(resets, m', data[1..]);
      }
    }
  }

  /** Every run of a fresh parser, whatever the bytes and whatever the completion callback does: no
      assert fires, the invariant holds unless an error is set, and the log obeys the grammar at every
      moment. */
  lemma EveryRun(t: Type, resets: Policy, data: string)
    ensures var r := Run(resets, Machine(Init(t), []), data);
      && !r.verdict.Aborted?
      && (r.verdict.Failed? ==> r.m.f.errno != HPE_OK)
      && (r.verdict.Going? || r.verdict.Left? ==> Inv(r.m.f) && Fits(r.m.f, PhaseOf(r.m.log)))
      && Grammatical(r.m.log)
  {
    hide Run;
    InitInv(t);
    InitFits(t);
    RunKeeps(resets, Machine(Init(t), []), data);
    RunFits(resets, Machine(Init(t), []), data);
    AtEveryMoment(Run(resets, Machine(Init(t), []), data).m.log);
  }

  /** No callback follows once a connection that closes has completed its message. */
  lemma {:induction false} DeadIsSilent(resets: Policy, m: Machine, data: string)
    requires m.f.state.Dead?
    ensures Run(resets, m, data).m.log == m.log
    ensures Run(resets, m, data).verdict.Going? <==>
      (m.f.nread + |data| <= HTTP_MAX_HEADER_SIZE || data == "") && forall i | 0 <= i < |data| :: data[i] == CR || data[i] == LF
    decreases |data|
  {
    hide Switch;
    if data != "" {
      var f := m.f.(nread := m.f.nread + 1);
      Opened(f, data[0]);
      var (m', v) := Step(resets, m, data[0]);
      if v.Going? {
        DeadIsSilent(resets, m', data[1..]);
        assert forall i | 1 <= i < |data| :: data[i] == data[1..][i - 1];
      }
    }
  }
}
