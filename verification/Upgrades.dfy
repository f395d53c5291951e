/** Requests that change the protocol: the parser stops behind their head, and leaves the rest alone. */
module Upgrades {
  import opened Bytes
  import opened HttpTypes
  import opened Dispatch
  import opened EventLog
  import opened Machine
  import opened Execution
  import opened Recognisers
  import opened Accumulators
  import opened HeaderLines
  import opened FirstLines
  import opened MessageRuns
  import opened Framings

  lemma LfEndsUpgrade(f: Fields)
    requires f.state.HeadersAlmostDone? && !f.flags.trailing && (f.flags.upgrade || f.verb.CONNECT?)
    ensures Switch(f, LF)
         == Action(f.(state := HeadersDone, upgrade := true), None, None, NotifyHeadersComplete, Reexecute)
  {
    hide Switch;
    Opened(f, LF);
  }

  /** The fields when the head of such a request has been read. */
  function Upgraded(f: Fields): Fields {
    f.(state := NextState(Request, f.httpMajor, f.httpMinor, f.flags), upgrade := true, nread := 0)
  }

  lemma UpgradeDispatched(resets: Policy, m: Machine)
    requires m.f.state.HeadersAlmostDone? && m.f.typ.Request? && !m.f.flags.trailing && (m.f.flags.upgrade || m.f.verb.CONNECT?)
    ensures Dispatched(resets, m, LF)
         == (Completed(resets, Machine(Upgraded(m.f), m.log + [HeadersComplete(NoBody)])), Left)
  {
    hide Switch, Completed, NewMessage, Push;
    LfEndsUpgrade(m.f);
    var g := m.f.(state := HeadersDone, upgrade := true);
    HeadersAreDone(g);
    NextIsNew(g.(nread := 0));
    PushHeadersComplete(m.log, NoBody);
    assert Dispatched(resets, m, LF) == Dispatched(resets, Machine(g, m.log + [HeadersComplete(NoBody)]), LF);
  }

  lemma UpgradeStep(resets: Policy, m: Machine, end: string, rest: string)
    requires AtLineStart(m.f.state) && LineEnd(end) && m.f.nread + |end| <= HTTP_MAX_HEADER_SIZE
    requires m.f.typ.Request? && !m.f.flags.trailing && (m.f.flags.upgrade || m.f.verb.CONNECT?)
    ensures Run(resets, m, end + rest)
         == Ran(Completed(resets, Machine(Upgraded(m.f), m.log + [HeadersComplete(NoBody)])), |end|, Left)
  {
    hide Step, Dispatched, Completed;
    var m' := Completed(resets, Machine(Upgraded(m.f), m.log + [HeadersComplete(NoBody)]));
    if end == "\n" {
      LoneLf(resets, m);
      UpgradeDispatched(resets, m.(f := Counted(m.f).(state := HeadersAlmostDone)));
      StopsThere(resets, m, LF, m', rest);
      assert end == [LF];
    } else {
      var m1 := LastCr(resets, m);
      UpgradeCounted(resets, m1);
      StopsThere(resets, m1, LF, m', rest);
      assert end == [CR, LF] && (end + rest)[1..] == [LF] + rest;
    }
  }

  lemma UpgradeCounted(resets: Policy, m: Machine)
    requires m.f.state.HeadersAlmostDone? && m.f.typ.Request? && !m.f.flags.trailing && (m.f.flags.upgrade || m.f.verb.CONNECT?)
    requires m.f.nread < HTTP_MAX_HEADER_SIZE
    ensures Step(resets, m, LF) == (Completed(resets, Machine(Upgraded(m.f), m.log + [HeadersComplete(NoBody)])), Left)
  {
    hide Dispatched, Completed;
    UpgradeDispatched(resets, m.(f := Counted(m.f)));
  }

  lemma StopsThere(resets: Policy, m: Machine, ch: char, m': Machine, rest: string)
    requires Step(resets, m, ch) == (m', Left)
    ensures Run(resets, m, [ch] + rest) == Ran(m', 1, Left)
  {
    hide Step;
  }

  /** A request of any spelling. */
  datatype Head = Head(word: string, more: string, url: string, further: string, major: string, minor: string, end: string,
                       lines: seq<Header>, ends: seq<string>, last: string)

  function HeadText(h: Head): string
    requires |h.ends| == |h.lines|
  {
    AnyLine(h.word, h.more, h.url, h.further, h.major, h.minor, h.end) + LinesWith(h.lines, h.ends) + h.last
  }

  predicate LegalHead(h: Head, v: Method) {
    && LegalLine(h.word, v, h.more, h.url, h.further, h.major, h.minor, h.end)
    && LegalHeaders(h.lines) && |h.ends| == |h.lines| && LineEnds(h.ends) && LineEnd(h.last)
    && |HeadText(h)| <= HTTP_MAX_HEADER_SIZE
  }

  lemma LineNumbers(h: Head, v: Method)
    requires LegalHead(h, v)
    ensures AllNum(h.major) && AllNum(h.minor)
  {
  }

  /** The request line and the header lines of any request. */
  lemma HeadRead(resets: Policy, m: Machine, h: Head, v: Method) returns (m': Machine)
    requires LegalHead(h, v) && m.f.state.StartReq? && m.f.typ.Request? && m.f.nread == 0 && !EndsWith(m.log, OnUrl)
    ensures Reads(resets, m, AnyLine(h.word, h.more, h.url, h.further, h.major, h.minor, h.end) + LinesWith(h.lines, h.ends), m')
    ensures AllNum(h.major) && AllNum(h.minor)
    ensures AtLineStart(m'.f.state) && m'.log == m.log + [Data(OnUrl, h.url)] + HeaderEvents(h.lines)
    ensures m'.f == m.f.(state := m'.f.state, index := m'.f.index, headerState := m'.f.headerState,
                         verb := v, httpMajor := DecValue(h.major), httpMinor := DecValue(h.minor),
                         nread := |HeadText(h)| - |h.last|,
                         flags := BlockFlags(NO_FLAGS, h.lines), contentLength := BlockLength(ULLONG_MAX, h.lines))
  {
    hide Reads, Run, Step, LegalLine, LegalHeaders, LineEnds, LineEnd, LinesWith, AnyLine, BlockFlags, BlockLength, HeaderEvents, DecValue;
    LineNumbers(h, v);
    var m1 := AnyLineRead(resets, m, h.word, v, h.more, h.url, h.further, h.major, h.minor, h.end);
    assert m1.log == m.log + [Data(OnUrl, h.url)];
    m' := HeaderLinesRead(resets, m1, h.lines, h.ends);
    ReadsConcat(resets, m, AnyLine(h.word, h.more, h.url, h.further, h.major, h.minor, h.end), m1, LinesWith(h.lines, h.ends), m');
  }

  /** A CONNECT request, and one with an Upgrade line, whatever is behind its head: the run ends at the empty
      line with the request completed, and reads nothing of the rest. */
  lemma UpgradeRead(resets: Policy, m: Machine, h: Head, v: Method, rest: string) returns (m': Machine)
    requires LegalHead(h, v) && m.f.state.StartReq? && m.f.typ.Request? && m.f.nread == 0 && !EndsWith(m.log, OnUrl)
    requires v.CONNECT? || SomeShows(h.lines, Sign.Upgrades)
    ensures Run(resets, m, HeadText(h) + rest) == Ran(m', |HeadText(h)|, Left)
    ensures var snap := Snapshot(v, m.f.statusCode, DecValue(h.major), DecValue(h.minor));
      m'.log == m.log + [Data(OnUrl, h.url)] + HeaderEvents(h.lines) + [HeadersComplete(NoBody), MessageComplete(snap)]
    ensures if resets(m'.log) then m'.f == Init(Request)
            else m'.f.upgrade && m'.f.state == if KeptOpen(DecValue(h.major), DecValue(h.minor), h.lines) then StartReq else Dead
  {
    hide Reads, Step, Run, LegalLine, LegalHeaders, LineEnds, LineEnd, LinesWith, AnyLine, BlockFlags, BlockLength, HeaderEvents, DecValue,
         SomeShows, KeptOpen, Completed;
    var m1 := HeadRead(resets, m, h, v);
    FlagsSay(NO_FLAGS, h.lines);
    PersistsIs(DecValue(h.major), DecValue(h.minor), h.lines);
    UpgradeStep(resets, m1, h.last, rest);
    var front := AnyLine(h.word, h.more, h.url, h.further, h.major, h.minor, h.end) + LinesWith(h.lines, h.ends);
    RunsOn(resets, m, front, m1, h.last + rest);
    assert front + (h.last + rest) == HeadText(h) + rest;
    var g := Machine(Upgraded(m1.f), m1.log + [HeadersComplete(NoBody)]);
    m' := Completed(resets, g);
    CompletedLog(resets, g);
    var log := m.log + [Data(OnUrl, h.url)] + HeaderEvents(h.lines);
    assert log + [HeadersComplete(NoBody)] + [MessageComplete(SnapshotOf(g.f))] == log + [HeadersComplete(NoBody), MessageComplete(SnapshotOf(g.f))];
  }

  lemma RunsOn(resets: Policy, m: Machine, s: string, m1: Machine, t: string)
    requires Reads(resets, m, s, m1)
    ensures Run(resets, m, s + t) == After(|s|, Run(resets, m1, t))
  {
    RunConcat(resets, m, s, t);
  }

  /** So a call reads the head and no more, and sets no error. */
  lemma UpgradeCall(resets: Policy, m: Machine, h: Head, v: Method, rest: string, after: Machine, n: nat)
    requires LegalHead(h, v) && m.f.state.StartReq? && m.f.typ.Request? && m.f.nread == 0 && !EndsWith(m.log, OnUrl)
    requires v.CONNECT? || SomeShows(h.lines, Sign.Upgrades)
    requires m.f.errno == HPE_OK && Executed(resets, m, HeadText(h) + rest, after, n)
    ensures n == |HeadText(h)| && after.f.errno == HPE_OK
    ensures !resets(after.log) ==> after.f.upgrade
  {
    hide Run, HeadText, LegalHead, SomeShows, HeaderEvents, KeptOpen;
    HeadNotEmpty(h, v);
    var m' := UpgradeRead(resets, m, h, v, rest);
  }

  lemma HeadNotEmpty(h: Head, v: Method)
    requires LegalHead(h, v)
    ensures HeadText(h) != ""
  {
    assert h.last != "";
  }

  /** A request without an upgrade is read on behind its head. */
  lemma NoUpgrade(resets: Policy, m: Machine, h: Head, v: Method) returns (m': Machine)
    requires LegalHead(h, v) && m.f.state.StartReq? && m.f.typ.Request? && m.f.nread == 0 && !EndsWith(m.log, OnUrl)
    requires !v.CONNECT? && !SomeShows(h.lines, Sign.Upgrades)
    ensures Reads(resets, m, HeadText(h), m')
    ensures var n := BlockLength(ULLONG_MAX, h.lines);
      var log := m.log + [Data(OnUrl, h.url)] + HeaderEvents(h.lines);
      if SomeShows(h.lines, IsChunked) then m'.f.state.ChunkSizeStart? && m'.log == log + [HeadersComplete(Framing.Chunked)]
      else if 0 < n < ULLONG_MAX then m'.f.state.BodyIdentity? && m'.f.contentLength == n && m'.log == log + [HeadersComplete(Sized(n))]
      else
        var snap := Snapshot(v, m.f.statusCode, DecValue(h.major), DecValue(h.minor));
        && m'.log == log + [HeadersComplete(if n == 0 then Sized(0) else NoBody), MessageComplete(snap)]
        && (!resets(m'.log) ==> m'.f.state == if KeptOpen(DecValue(h.major), DecValue(h.minor), h.lines) then StartReq else Dead)
  {
    hide Reads, Step, Run, LegalLine, LegalHeaders, LineEnds, LineEnd, LinesWith, AnyLine, BlockFlags, BlockLength, HeaderEvents, DecValue,
         SomeShows, KeptOpen, Completed, Push;
    var m1 := HeadRead(resets, m, h, v);
    FlagsSay(NO_FLAGS, h.lines);
    PersistsIs(DecValue(h.major), DecValue(h.minor), h.lines);
    BlockIsSmall(ULLONG_MAX, h.lines);
    m' := HeadEnd(resets, m1, h.last);
    var front := AnyLine(h.word, h.more, h.url, h.further, h.major, h.minor, h.end) + LinesWith(h.lines, h.ends);
    ReadsConcat(resets, m, front, m1, h.last, m');
    var g := MessageRuns.HeadRead(m1.f);
    var framing := FramingOf(g);
    PushHeadersComplete(m1.log, framing);
    NextIsNew(g);
    var c := Machine(To(g, NewMessage(g)), m1.log + [HeadersComplete(framing)]);
    CompletedLog(resets, c);
    assert m1.log + [HeadersComplete(framing)] + [MessageComplete(SnapshotOf(c.f))]
        == m1.log + [HeadersComplete(framing), MessageComplete(SnapshotOf(c.f))];
  }

  lemma {:induction false} BlockIsSmall(n: nat, hs: seq<Header>)
    requires LegalHeaders(hs) && n <= ULLONG_MAX
    ensures BlockLength(n, hs) <= ULLONG_MAX
    decreases |hs|
  {
    hide Classify;
    if hs != [] {
      assert LegalHeader(hs[0]);
      LineIsSmall(n, Classify(hs[0].name), hs[0].value);
      BlockIsSmall(LineLength(n, Classify(hs[0].name), hs[0].value), hs[1..]);
    }
  }

  lemma LineIsSmall(n: nat, name: HeaderName, v: string)
    requires LegalLength(name, v) && n <= ULLONG_MAX
    ensures LineLength(n, name, v) <= ULLONG_MAX
  {
    if name.LengthHeader? && v != "" {
      LengthIsSmall(0, v);
    }
  }
}
