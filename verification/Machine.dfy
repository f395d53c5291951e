/** The reference semantics of the parser: one byte at a time, one joined log, no marks and no
    bulk reads.  `resets` stands for the completion callback: from everything the callbacks have
    been told it decides whether the callback re-initialises the parser before it returns. */
module Machine {
  import opened Bytes
  import opened HttpTypes
  import opened Dispatch
  import opened EventLog

  type Policy = Log -> bool

  datatype Machine = Machine(f: Fields, log: Log)

  /** What the bytes read so far made of a call: it goes on, it failed on the next byte, it
      returned early after an upgrade, or an assert fired. */
  datatype Verdict = Going | Failed | Left | Aborted

  datatype Ran = Ran(m: Machine, n: nat, verdict: Verdict)

  /** The data callback for the byte `ch`, which action `a` handled in state `s`: one byte of data
      while data is read, and an empty value where a value has no byte. */
  function DataOf(s: State, a: Action, ch: char): Option<Event> {
    if a.mark.Some? then Some(Data(a.mark.value, if a.flush.Some? then "" else [ch]))
    else if a.flush.Some? then None
    else if KindOf(s).Some? then Some(Data(KindOf(s).value, [ch]))
    else if ReadsBody(s) then Some(Data(OnBody, [ch]))
    else None
  }

  function Emit(log: Log, s: State, a: Action, ch: char): Log {
    if DataOf(s, a, ch).Some? then Push(log, DataOf(s, a, ch).value) else log
  }

  function FramingOf(f: Fields): Framing {
    if f.upgrade || f.flags.skipBody then NoBody
    else if f.flags.chunked then Chunked
    else if f.contentLength != ULLONG_MAX then Sized(f.contentLength)
    else if MessageNeedsEof(f) then UntilEof
    else NoBody
  }

  /** The completion callback, which may re-initialise the parser. */
  function Completed(resets: Policy, m: Machine): Machine {
    var log := Push(m.log, MessageComplete(SnapshotOf(m.f)));
    Machine(if resets(log) then Init(m.f.typ) else m.f, log)
  }

  /** Dispatch one byte until a case breaks. */
  function Dispatched(resets: Policy, m: Machine, ch: char): (Machine, Verdict)
    decreases Rank(m.f.state)
  {
    var a := Switch(m.f, ch);
    var log := Emit(m.log, m.f.state, a, ch);
    match a.exit
    case Error => (Machine(a.f, m.log), Failed)
    case Abort => (Machine(a.f, m.log), Aborted)
    case Reexecute =>
      var log' := if a.notice.NotifyHeadersComplete? then Push(log, HeadersComplete(FramingOf(a.f))) else log;
      Dispatched(resets, Machine(a.f, log'), ch)
    case _ =>
      var m' := Machine(a.f, log);
      (if a.notice.NotifyMessageComplete? then Completed(resets, m') else m',
       if a.exit.Return? then Left else Going)
  }

  /** One iteration of the byte loop. */
  function Step(resets: Policy, m: Machine, ch: char): (Machine, Verdict) {
    if !ParsingHeader(m.f.state) then Dispatched(resets, m, ch)
    else if m.f.nread + 1 > HTTP_MAX_HEADER_SIZE then
      (m.(f := m.f.(nread := m.f.nread + 1, errno := HPE_HEADER_OVERFLOW)), Failed)
    else Dispatched(resets, m.(f := m.f.(nread := m.f.nread + 1)), ch)
  }

  function After(k: nat, r: Ran): Ran {
    r.(n := k + r.n)
  }

  /** Feed bytes until they are used up or a byte stops the call. */
  function Run(resets: Policy, m: Machine, data: string): (r: Ran)
    ensures r.n <= |data|
    ensures r.verdict.Going? ==> r.n == |data|
    ensures r.verdict.Failed? || r.verdict.Aborted? ==> r.n < |data|
    decreases |data|
  {
    if data == "" then Ran(m, 0, Going)
    else
      var (m', v) := Step(resets, m, data[0]);
      match v
      case Going => After(1, Run(resets, m', data[1..]))
      case Left => Ran(m', 1, Left)
      case _ => Ran(m', 0, v)
  }

  /** `s` is read completely from `m` and leaves `m'`. */
  predicate Reads(resets: Policy, m: Machine, s: string, m': Machine) {
    Run(resets, m, s) == Ran(m', |s|, Going)
  }

  /** Running a concatenation is running its first part and then, if that goes on, the second. */
  lemma {:induction false} RunConcat(resets: Policy, m: Machine, s: string, t: string)
    ensures var r := Run(resets, m, s);
      Run(resets, m, s + t) == if r.verdict.Going? then After(|s|, Run(resets, r.m, t)) else r
    decreases |s|
  {
    hide Step;
    if s == "" {
      assert s + t == t;
    } else {
      assert (s + t)[1..] == s[1..] + t;
      var (m', v) := Step(resets, m, s[0]);
      if v.Going? {
        RunConcat(resets, m', s[1..], t);
      }
    }
  }

  lemma ReadsConcat(resets: Policy, m: Machine, s: string, m1: Machine, t: string, m2: Machine)
    requires Reads(resets, m, s, m1) && Reads(resets, m1, t, m2)
    ensures Reads(resets, m, s + t, m2)
  {
    hide Run;
    RunConcat(resets, m, s, t);
  }

  lemma ReadsOne(resets: Policy, m: Machine, ch: char)
    requires Step(resets, m, ch).1.Going?
    ensures Reads(resets, m, [ch], Step(resets, m, ch).0)
  {
    hide Step;
    var (m', v) := Step(resets, m, ch);
    assert [ch][1..] == "";
    assert Run(resets, m', "") == Ran(m', 0, Going);
  }

  lemma ReadsCons(resets: Policy, m: Machine, m1: Machine, s: string, m2: Machine)
    requires s != "" && Step(resets, m, s[0]) == (m1, Going) && Reads(resets, m1, s[1..], m2)
    ensures Reads(resets, m, s, m2)
  {
    hide Step;
  }

  lemma ReadsNothing(resets: Policy, m: Machine)
    ensures Reads(resets, m, "", m)
  {
    hide Step;
  }

  /** A machine that has read the bytes `s` of a body in one go. */
  function BodyRead(resets: Policy, m: Machine, s: string): Machine
    requires ReadsBody(m.f.state)
    requires m.f.state.BodyIdentityEof? || |s| <= m.f.contentLength
  {
    var log := Push(m.log, Data(OnBody, s));
    if m.f.state.BodyIdentityEof? then Machine(m.f, log)
    else
      var g := m.f.(contentLength := m.f.contentLength - |s|);
      if g.contentLength > 0 then Machine(g, log)
      else if m.f.state.ChunkData? then Machine(To(g, ChunkDataAlmostDone), log)
      else Completed(resets, Machine(To(g, NewMessage(To(g, MessageDone))), log))
  }

  /** The last byte of a sized body also dispatches the end of the message. */
  lemma BodyEnds(resets: Policy, m: Machine, ch: char)
    requires m.f.state.MessageDone?
    ensures Dispatched(resets, m, ch) == (Completed(resets, Machine(To(m.f, NewMessage(m.f)), m.log)), Going)
  {
    hide Switch, Completed, Push, ShouldKeepAlive;
    Opened(m.f, ch);
  }

  lemma BodyCase(f: Fields, ch: char)
    requires ReadsBody(f.state)
    ensures Switch(f, ch) == SwitchBody(f, ch)
  {
    hide Switch, SwitchBody;
    Opened(f, ch);
  }

  lemma StepBody(resets: Policy, m: Machine, ch: char)
    requires ReadsBody(m.f.state) && BodyAsserts(m.f)
    ensures Step(resets, m, ch) == (BodyRead(resets, m, [ch]), Going)
  {
    hide Switch, Completed, Push;
    BodyCase(m.f, ch);
    if m.f.state.BodyIdentity? && m.f.contentLength == 1 {
      var g := To(m.f.(contentLength := 0), MessageDone);
      var log := Push(m.log, Data(OnBody, [ch]));
      BodyEnds(resets, Machine(g, log), ch);
      assert Dispatched(resets, m, ch) == Dispatched(resets, Machine(g, log), ch);
    }
  }

  /** Reading a piece of the body in one go is reading it byte by byte. */
  lemma {:induction false} RunBody(resets: Policy, m: Machine, data: string, k: nat)
    requires ReadsBody(m.f.state) && BodyAsserts(m.f) && m.f.contentLength <= ULLONG_MAX
    requires 0 < k <= |data|
    requires m.f.state.BodyIdentityEof? || k <= m.f.contentLength
    ensures Run(resets, m, data) == After(k, Run(resets, BodyRead(resets, m, data[..k]), data[k..]))
    decreases k
  {
    hide Step, Completed, Push;
    StepBody(resets, m, data[0]);
    assert data[..1] == [data[0]];
    var m' := BodyRead(resets, m, data[..1]);
    if k > 1 {
      RunBody(resets, m', data[1..], k - 1);
      PushPieces(m.log, OnBody, data[..1], data[1..][..k - 1]);
      assert data[..1] + data[1..][..k - 1] == data[..k];
      assert data[1..][k - 1..] == data[k..];
    }
  }
}
