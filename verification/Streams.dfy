/** Streams of messages: after a completion that resets it, the parser reads on as a fresh one. */
module Streams {
  import opened HttpTypes
  import opened Dispatch
  import opened EventLog
  import opened Machine
  import opened Execution
  import opened Fragmentation

  /** The parser with more callbacks behind it. */
  function Behind(before: Log, m: Machine): Machine {
    Machine(m.f, before + m.log)
  }

  /** The completion callback, told only what follows `before`. */
  function Later(resets: Policy, before: Log): Policy {
    (log: Log) => resets(before + log)
  }

  /** No data callback that could go on. */
  predicate Closed(log: Log) {
    log == [] || !log[|log| - 1].Data?
  }

  lemma PushBehind(before: Log, log: Log, e: Event)
    requires Closed(before)
    ensures Push(before + log, e) == before + Push(log, e)
  {
    if log != [] && e.Data? && EndsWith(log, e.kind) {
      var i := |log| - 1;
      assert (before + log)[..|before + log| - 1] == before + log[..i];
      assert (before + log)[|before| + i] == log[i];
    } else if log == [] {
      assert before + log == before;
    }
  }

  lemma CompletedBehind(resets: Policy, before: Log, m: Machine)
    requires Closed(before)
    ensures Completed(resets, Behind(before, m)) == Behind(before, Completed(Later(resets, before), m))
  {
    hide Push;
    PushBehind(before, m.log, MessageComplete(SnapshotOf(m.f)));
  }

  lemma {:induction false} DispatchedBehind(resets: Policy, before: Log, m: Machine, ch: char)
    requires Closed(before)
    ensures var d := Dispatched(Later(resets, before), m, ch);
      Dispatched(resets, Behind(before, m), ch) == (Behind(before, d.0), d.1)
    decreases Rank(m.f.state)
  {
    hide Switch, Push, Completed, DataOf;
    var a := Switch(m.f, ch);
    var log := Emit(m.log, m.f.state, a, ch);
    if DataOf(m.f.state, a, ch).Some? {
      PushBehind(before, m.log, DataOf(m.f.state, a, ch).value);
    }
    assert Emit(before + m.log, m.f.state, a, ch) == before + log;
    if a.exit.Reexecute? {
      PushBehind(before, log, HeadersComplete(FramingOf(a.f)));
      ShapeOf(m.f, ch);
      DispatchedBehind(resets, before, Machine(a.f, if a.notice.NotifyHeadersComplete? then Push(log, HeadersComplete(FramingOf(a.f))) else log), ch);
    } else if !a.exit.Error? && !a.exit.Abort? {
      CompletedBehind(resets, before, Machine(a.f, log));
    }
  }

  lemma StepBehind(resets: Policy, before: Log, m: Machine, ch: char)
    requires Closed(before)
    ensures var d := Step(Later(resets, before), m, ch);
      Step(resets, Behind(before, m), ch) == (Behind(before, d.0), d.1)
  {
    hide Dispatched;
    var f := m.f.(nread := m.f.nread + 1);
    assert Behind(before, m).(f := f) == Behind(before, m.(f := f));
    if ParsingHeader(m.f.state) {
      DispatchedBehind(resets, before, m.(f := f), ch);
    } else {
      DispatchedBehind(resets, before, m, ch);
    }
  }

  /** What was called back before does not matter to the parser, and stays. */
  lemma {:induction false} RunBehind(resets: Policy, before: Log, m: Machine, data: string)
    requires Closed(before)
    ensures var r := Run(Later(resets, before), m, data);
      Run(resets, Behind(before, m), data) == Ran(Behind(before, r.m), r.n, r.verdict)
    decreases |data|
  {
    hide Step, Behind;
    if data != "" {
      StepBehind(resets, before, m, data[0]);
      RunBehind(resets, before, Step(Later(resets, before), m, data[0]).0, data[1..]);
    }
  }

  /** Every stream: if `s` is read from a fresh parser up to a completion that resets it, then whatever
      comes behind `s` is read as by a fresh parser, good or bad, and its callbacks follow those of `s`. */
  lemma EveryStream(t: Type, resets: Policy, s: string, log: Log, rest: string)
    requires Reads(resets, Machine(Init(t), []), s, Machine(Init(t), log)) && Closed(log)
    ensures var r := Run(Later(resets, log), Machine(Init(t), []), rest);
      Run(resets, Machine(Init(t), []), s + rest) == Ran(Machine(r.m.f, log + r.m.log), |s| + r.n, r.verdict)
  {
    hide Run;
    RunConcat(resets, Machine(Init(t), []), s, rest);
    RunBehind(resets, log, Machine(Init(t), []), rest);
    assert log + [] == log;
  }

  /** Messages of any kind, each of which is read from a fresh parser to a completion that resets it. */
  predicate Messages(t: Type, resets: Policy, texts: seq<string>, logs: seq<Log>)
    decreases |texts|
  {
    && |logs| == |texts|
    && (texts != [] ==>
          && Closed(logs[0])
          && Reads(resets, Machine(Init(t), []), texts[0], Machine(Init(t), logs[0]))
          && Messages(t, Later(resets, logs[0]), texts[1..], logs[1..]))
  }

  function AllLogs(logs: seq<Log>): Log {
    if logs == [] then [] else logs[0] + AllLogs(logs[1..])
  }

  /** One behind the other they are read to the last byte, and their callbacks follow each other. */
  lemma {:induction false} EveryPipeline(t: Type, resets: Policy, texts: seq<string>, logs: seq<Log>)
    requires Messages(t, resets, texts, logs)
    ensures Reads(resets, Machine(Init(t), []), Concat(texts), Machine(Init(t), AllLogs(logs)))
    decreases |texts|
  {
    hide Run;
    if texts == [] {
      RunNothing(resets, Machine(Init(t), []));
    } else {
      EveryStream(t, resets, texts[0], logs[0], Concat(texts[1..]));
      EveryPipeline(t, Later(resets, logs[0]), texts[1..], logs[1..]);
    }
  }
}
