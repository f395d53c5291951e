/** What the parser does not accept, and what it says then. */
module Rejections {
  import opened Bytes
  import opened HttpTypes
  import opened Dispatch
  import opened EventLog
  import opened Machine
  import opened Execution
  import opened Recognisers
  import opened HeaderLines
  import opened FirstLines

  // ---------- The error numbers ----------

  /** The errors that can be found in a state. */
  function Complaints(s: State): set<Errno> {
    if s.Dead? then {HPE_CLOSED_CONNECTION}
    else if s.StartReq? then {HPE_INVALID_METHOD}
    else if s.ReqMethod? then {HPE_INVALID_METHOD, HPE_UNKNOWN}
    else if s.ReqSpacesBeforeUrl? || ReadsUrl(s) then {HPE_INVALID_URL}
    else if s.ReqHttpStart? || s.StartRes? then {HPE_INVALID_CONSTANT}
    else if RequestHttpState(s) || ResponseStartState(s) then {HPE_STRICT}
    else if s.ReqLineAlmostDone? then {HPE_LF_EXPECTED}
    else if RequestVersionState(s) || ResponseVersionState(s) then {HPE_INVALID_VERSION}
    else if s.ResFirstStatusCode? || s.ResStatusCode? then {HPE_INVALID_STATUS}
    else if s.HeaderFieldStart? || s.HeaderField? || s.HeaderValueLws? then {HPE_INVALID_HEADER_TOKEN}
    else if s.HeaderValueStart? || s.HeaderValue? then {HPE_INVALID_CONTENT_LENGTH}
    else if s.ChunkSizeStart? then {HPE_INVALID_CHUNK_SIZE}
    else if s.ChunkSize? then {HPE_INVALID_CHUNK_SIZE, HPE_INVALID_CONTENT_LENGTH}
    else {HPE_STRICT}
  }

  predicate TakesLf(s: State) {
    s.HeaderFieldStart? || s.HeaderAlmostDone? || s.HeadersAlmostDone? || s.HeadersDone?
  }

  /** An error of a case is one of its state, and a byte is dispatched again at the ends of lines and bodies. */
  predicate Complains(s: State, ch: char, a: Action) {
    && (a.exit.Error? ==> a.f.errno in Complaints(s))
    && (a.exit.Reexecute? ==>
          (s.HeaderValueLws? && a.f.state.HeaderFieldStart?) || (ch == LF && TakesLf(a.f.state)) || a.f.state.MessageDone?)
  }

  lemma RequestComplains(f: Fields, ch: char)
    requires f.state.Dead? || f.state.StartReq? || f.state.ReqMethod? || f.state.ReqSpacesBeforeUrl? || ReadsUrl(f.state)
    ensures Complains(f.state, ch, Switch(f, ch))
  {
    hide Switch, Shape, MethodString, OtherMethod, ParseUrlChar;
    Opened(f, ch);
  }

  lemma VersionComplains(f: Fields, ch: char)
    requires RequestHttpState(f.state) || RequestVersionState(f.state)
    ensures Complains(f.state, ch, Switch(f, ch))
  {
    hide Switch, Shape;
    Opened(f, ch);
  }

  lemma StatusComplains(f: Fields, ch: char)
    requires ResponseStartState(f.state) || ResponseVersionState(f.state) || StatusLineState(f.state)
    ensures Complains(f.state, ch, Switch(f, ch))
  {
    hide Switch, Shape;
    Opened(f, ch);
  }

  lemma HeaderComplains(f: Fields, ch: char)
    requires f.state.HeaderFieldStart? || f.state.HeaderField? || f.state.HeaderValueStart? || f.state.HeaderValue? || HeaderEndState(f.state)
    ensures Complains(f.state, ch, Switch(f, ch))
  {
    hide Switch, Shape, Shift64, SwitchFieldName, SwitchValueText, FirstValueState, FlagsAfterValue;
    Opened(f, ch);
  }

  lemma BodyComplains(f: Fields, ch: char)
    requires f.state.HeadersDone? || ChunkSizeState(f.state) || ChunkEndState(f.state) || ReadsBody(f.state) || f.state.MessageDone?
    ensures Complains(f.state, ch, Switch(f, ch))
  {
    hide Switch, Shape, Shift64;
    Opened(f, ch);
  }

  lemma CaseComplains(f: Fields, ch: char)
    ensures Complains(f.state, ch, Switch(f, ch))
  {
    hide Switch, Complains;
    if RequestHttpState(f.state) || RequestVersionState(f.state) {
      VersionComplains(f, ch);
    } else if ResponseStartState(f.state) || ResponseVersionState(f.state) || StatusLineState(f.state) {
      StatusComplains(f, ch);
    } else if f.state.HeaderFieldStart? || f.state.HeaderField? || f.state.HeaderValueStart? || f.state.HeaderValue? || HeaderEndState(f.state) {
      HeaderComplains(f, ch);
    } else if f.state.HeadersDone? || ChunkSizeState(f.state) || ChunkEndState(f.state) || ReadsBody(f.state) || f.state.MessageDone? {
      BodyComplains(f, ch);
    } else {
      RequestComplains(f, ch);
    }
  }

  lemma LfCase(f: Fields)
    requires TakesLf(f.state)
    ensures var a := Switch(f, LF); !a.exit.Error? && (a.exit.Reexecute? ==> TakesLf(a.f.state))
  {
    hide Switch, Shape, NewMessage, FlagsAfterValue;
    Opened(f, LF);
  }

  lemma {:induction false} LfNeverFails(resets: Policy, m: Machine)
    requires TakesLf(m.f.state)
    ensures !Dispatched(resets, m, LF).1.Failed?
    decreases Rank(m.f.state)
  {
    hide Switch, Push, Completed, TakesLf;
    LfCase(m.f);
    ShapeOf(m.f, LF);
    var a := Switch(m.f, LF);
    if a.exit.Reexecute? {
      var log := Emit(m.log, m.f.state, a, LF);
      LfNeverFails(resets, Machine(a.f, if a.notice.NotifyHeadersComplete? then Push(log, HeadersComplete(FramingOf(a.f))) else log));
    }
  }

  lemma DoneCase(f: Fields, ch: char)
    requires f.state.MessageDone?
    ensures !Switch(f, ch).exit.Error? && !Switch(f, ch).exit.Reexecute?
  {
    hide Switch, NewMessage;
    Opened(f, ch);
  }

  lemma SameComplaints()
    ensures Complaints(HeaderValueLws) == Complaints(HeaderFieldStart)
  {
  }

  /** Where two errors are possible: a wrong byte in a word is unknown if the word can start more than one
      method that far, */
  lemma MethodComplains(resets: Policy, m: Machine, ch: char)
    requires m.f.state.ReqMethod? && m.f.nread < HTTP_MAX_HEADER_SIZE && Step(resets, m, ch).1.Failed?
    ensures var (f, branches) := (Step(resets, m, ch).0.f, m.f.verb in {CONNECT, MKCOL, SUBSCRIBE} || (m.f.verb == POST && m.f.index == 1));
      f.errno == if branches && ch != '\0' then HPE_UNKNOWN else HPE_INVALID_METHOD
  {
    hide Switch, MethodString, OtherMethod;
    Opened(Counted(m.f), ch);
  }

  /** and a byte that the table of digits knows is wrong in a size only if the size gets too large. */
  lemma SizeComplains(resets: Policy, m: Machine, ch: char)
    requires m.f.state.ChunkSize? && m.f.nread < HTTP_MAX_HEADER_SIZE && Step(resets, m, ch).1.Failed?
    ensures Step(resets, m, ch).0.f.errno == if IsHex(ch) || ch as int >= 128 then HPE_INVALID_CONTENT_LENGTH else HPE_INVALID_CHUNK_SIZE
  {
    hide Switch, Shift64;
    Opened(Counted(m.f), ch);
  }

  lemma {:induction false} DispatchComplains(resets: Policy, m: Machine, ch: char)
    ensures var (m', v) := Dispatched(resets, m, ch); v.Failed? ==> m'.f.errno in Complaints(m.f.state)
    decreases Rank(m.f.state)
  {
    hide Switch, Push, Completed, TakesLf, Complaints;
    CaseComplains(m.f, ch);
    ShapeOf(m.f, ch);
    var a := Switch(m.f, ch);
    if a.exit.Reexecute? {
      var log := Emit(m.log, m.f.state, a, ch);
      var next := Machine(a.f, if a.notice.NotifyHeadersComplete? then Push(log, HeadersComplete(FramingOf(a.f))) else log);
      assert Dispatched(resets, m, ch) == Dispatched(resets, next, ch);
      if ch == LF && TakesLf(a.f.state) {
        LfNeverFails(resets, next);
      } else if a.f.state.MessageDone? {
        DoneCase(a.f, ch);
      } else {
        SameComplaints();
        DispatchComplains(resets, next, ch);
      }
    }
  }

  /** The limit on headers in numbers: 80 KiB are read, and the next byte of a header is one too many. */
  lemma StepComplains(resets: Policy, m: Machine, ch: char)
    ensures var (m', v) := Step(resets, m, ch);
      if ParsingHeader(m.f.state) && m.f.nread >= 81920 then v.Failed? && m'.f.errno == HPE_HEADER_OVERFLOW
      else v.Failed? ==> m'.f.errno in Complaints(m.f.state)
  {
    hide Dispatched, Complaints;
    if ParsingHeader(m.f.state) {
      DispatchComplains(resets, m.(f := m.f.(nread := m.f.nread + 1)), ch);
    } else {
      DispatchComplains(resets, m, ch);
    }
  }

  /** Every run that fails: all bytes before the one it stops at were accepted, and the error is one of the state
      that they lead to, or the overflow of the headers. */
  lemma {:induction false} EveryError(resets: Policy, m: Machine, data: string)
    requires Run(resets, m, data).verdict.Failed?
    ensures var r := Run(resets, m, data);
      var before := Run(resets, m, data[..r.n]);
      && before.verdict.Going?
      && (if ParsingHeader(before.m.f.state) && before.m.f.nread >= 81920 then r.m.f.errno == HPE_HEADER_OVERFLOW
          else r.m.f.errno in Complaints(before.m.f.state))
    decreases |data|
  {
    hide Step, Complaints, ParsingHeader;
    StepComplains(resets, m, data[0]);
    RunNothing(resets, m);
    var (m', v) := Step(resets, m, data[0]);
    if v.Going? {
      EveryError(resets, m', data[1..]);
      var k := Run(resets, m', data[1..]).n;
      assert data[..k + 1][0] == data[0] && data[..k + 1][1..] == data[1..][..k];
    } else {
      assert data[..0] == "";
    }
  }

  // ---------- What is accepted, where only one thing is ----------

  /** The byte that must come next, in the states in which there is only one. */
  function Wanted(s: State): Option<char> {
    if s.ReqHttpH? || s.ReqHttpHT? || s.ResH? || s.ResHT? then Some('T')
    else if s.ReqHttpHTT? || s.ResHTT? then Some('P')
    else if s.ReqHttpHTTP? || s.ResHTTP? then Some('/')
    else if s.ReqLineAlmostDone? || s.ResLineAlmostDone? || s.HeaderAlmostDone? || s.HeadersAlmostDone?
            || s.ChunkSizeAlmostDone? || s.ChunkDataDone? then Some('\n')
    else if s.ChunkDataAlmostDone? then Some('\r')
    else None
  }

  lemma WantedCase(f: Fields, ch: char)
    requires Wanted(f.state).Some? && ch != Wanted(f.state).value
    ensures Switch(f, ch).exit.Error? || Switch(f, ch).exit.Abort?
  {
    hide Switch, Shape, NewMessage, FlagsAfterValue;
    Opened(f, ch);
  }

  /** Any other byte ends the run. */
  lemma NothingElse(resets: Policy, m: Machine, ch: char)
    requires Wanted(m.f.state).Some? && ch != Wanted(m.f.state).value
    ensures !Step(resets, m, ch).1.Going? && !Step(resets, m, ch).1.Left?
  {
    hide Switch, Wanted;
    WantedCase(m.f.(nread := m.f.nread + 1), ch);
    WantedCase(m.f, ch);
  }

  /** A name is accepted if and only if it is a token: before its colon nothing else may stand. */
  lemma NameIff(resets: Policy, m: Machine, name: string)
    requires m.f.state.HeaderFieldStart? && m.f.nread + |name| + 1 <= HTTP_MAX_HEADER_SIZE
    requires forall i | 0 <= i < |name| :: name[i] != ':' && name[i] != CR && name[i] != LF
    ensures Run(resets, m, name + ":").verdict.Going? <==> name != "" && AllToken(name)
  {
    hide Step, Reads, AllToken;
    if name != "" && AllToken(name) {
      var m1 := NameRecognised(resets, m, name);
      var m2 := Colon(resets, m1);
      ReadsConcat(resets, m, name, m1, ":", m2);
      ReadsGoing(resets, m, name + ":", m2);
    } else {
      NameStops(resets, m, name + ":");
    }
  }

  lemma ReadsGoing(resets: Policy, m: Machine, s: string, m': Machine)
    requires Reads(resets, m, s, m')
    ensures Run(resets, m, s).verdict.Going?
  {
  }

  lemma NameByteIs(resets: Policy, m: Machine, ch: char)
    requires m.f.state.HeaderFieldStart? || m.f.state.HeaderField?
    requires ch != CR && ch != LF && (m.f.state.HeaderField? ==> ch != ':') && m.f.nread < HTTP_MAX_HEADER_SIZE
    ensures var (m', v) := Step(resets, m, ch);
      if IsToken(ch) then v.Going? ==> m'.f.state.HeaderField? && m'.f.nread == m.f.nread + 1 else v.Failed?
  {
    hide Switch, SwitchFieldName, FirstHeaderState, Push, IsToken, Token;
    Opened(Counted(m.f), ch);
    ColonNoToken();
  }

  lemma ColonNoToken()
    ensures !IsToken(':')
  {
  }

  lemma {:induction false} NameStops(resets: Policy, m: Machine, s: string)
    requires m.f.state.HeaderFieldStart? || m.f.state.HeaderField?
    requires s != "" && s[|s| - 1] == ':' && m.f.nread + |s| <= HTTP_MAX_HEADER_SIZE
    requires forall i | 0 <= i < |s| - 1 :: s[i] != ':' && s[i] != CR && s[i] != LF
    requires (m.f.state.HeaderFieldStart? && |s| == 1) || !AllToken(s[..|s| - 1])
    ensures !Run(resets, m, s).verdict.Going?
    decreases |s|
  {
    hide Step, IsToken;
    ColonNoToken();
    if m.f.state.HeaderFieldStart? || |s| > 1 {
      NameByteIs(resets, m, s[0]);
      if IsToken(s[0]) && Step(resets, m, s[0]).1.Going? {
        assert s[..|s| - 1] == [s[0]] + s[1..][..|s[1..]| - 1];
        NameStops(resets, Step(resets, m, s[0]).0, s[1..]);
      }
    }
  }

  lemma {:induction false} UrlStops(resets: Policy, m: Machine, url: string)
    requires ReadsUrl(m.f.state) && m.f.nread + |url| + 1 <= HTTP_MAX_HEADER_SIZE
    requires forall i | 0 <= i < |url| :: url[i] != ' ' && url[i] != CR && url[i] != LF
    requires UrlEnd(m.f.state, url).Dead? || UrlOpen(UrlEnd(m.f.state, url))
    ensures Run(resets, m, url + " ").verdict.Failed?
    decreases |url|
  {
    hide Step, ParseUrlChar, Push;
    if url == "" {
      assert url + " " == " ";
      OpenSpace(resets, m);
    } else {
      assert (url + " ")[1..] == url[1..] + " ";
      if ParseUrlChar(m.f.state, url[0]).Dead? {
        UrlBad(resets, m, url[0]);
      } else {
        UrlByte(resets, m, url[0]);
        ParsedReads(m.f.state, url[0]);
        UrlStops(resets, Step(resets, m, url[0]).0, url[1..]);
      }
    }
  }

  lemma ParsedReads(s: State, ch: char)
    ensures ParseUrlChar(s, ch).Dead? || ReadsUrl(ParseUrlChar(s, ch))
  {
  }

  lemma OpenSpace(resets: Policy, m: Machine)
    requires ReadsUrl(m.f.state) && UrlOpen(m.f.state) && m.f.nread < HTTP_MAX_HEADER_SIZE
    ensures Step(resets, m, ' ').1.Failed?
  {
    hide Switch, ParseUrlChar;
    Opened(Counted(m.f), ' ');
  }

  lemma UrlBad(resets: Policy, m: Machine, ch: char)
    requires ReadsUrl(m.f.state) && ch != ' ' && ch != CR && ch != LF && ParseUrlChar(m.f.state, ch).Dead?
    requires m.f.nread < HTTP_MAX_HEADER_SIZE
    ensures Step(resets, m, ch).1.Failed?
  {
    hide Switch, ParseUrlChar;
    Opened(Counted(m.f), ch);
  }

  lemma UrlBadFirst(resets: Policy, m: Machine, ch: char)
    requires m.f.state.ReqSpacesBeforeUrl? && ch != ' ' && ParseUrlChar(UrlStart(m.f.verb.CONNECT?), ch).Dead?
    requires m.f.nread < HTTP_MAX_HEADER_SIZE
    ensures Step(resets, m, ch).1.Failed?
  {
    hide Switch, ParseUrlChar;
    Opened(Counted(m.f), ch);
  }

  /** A target with a space behind it is read if and only if it is a legal one. */
  lemma UrlIff(resets: Policy, m: Machine, url: string)
    requires m.f.state.ReqSpacesBeforeUrl? && url != "" && m.f.nread + |url| + 1 <= HTTP_MAX_HEADER_SIZE
    requires forall i | 0 <= i < |url| :: url[i] != ' ' && url[i] != CR && url[i] != LF
    ensures Run(resets, m, url + " ").verdict.Going? <==> LegalTarget(m.f.verb.CONNECT?, url)
  {
    hide Step, Reads, ParseUrlChar, Push;
    if LegalTarget(m.f.verb.CONNECT?, url) {
      var m' := UrlRead(resets, m, url);
      ReadsGoing(resets, m, url + " ", m');
    } else {
      var s := UrlStart(m.f.verb.CONNECT?);
      assert (url + " ")[1..] == url[1..] + " ";
      DeadUrl(url[1..]);
      if ParseUrlChar(s, url[0]).Dead? {
        UrlBadFirst(resets, m, url[0]);
      } else {
        UrlFirst(resets, m, url[0]);
        ParsedReads(s, url[0]);
        EndReads(ParseUrlChar(s, url[0]), url[1..]);
        UrlStops(resets, Step(resets, m, url[0]).0, url[1..]);
      }
    }
  }

  lemma {:induction false} EndReads(s: State, url: string)
    requires ReadsUrl(s)
    ensures UrlEnd(s, url).Dead? || ReadsUrl(UrlEnd(s, url))
    decreases |url|
  {
    hide ParseUrlChar;
    if url != "" {
      ParsedReads(s, url[0]);
      DeadUrl(url[1..]);
      if ReadsUrl(ParseUrlChar(s, url[0])) {
        EndReads(ParseUrlChar(s, url[0]), url[1..]);
      }
    }
  }

  // ---------- The end of the stream ----------

  /** A call of length 0 in any state: it completes a body that is read until then, changes nothing where a
      message may start and behind the last one, and elsewhere is an error that reports one byte. */
  lemma EofIs(resets: Policy, m: Machine, after: Machine, n: nat)
    requires m.f.errno == HPE_OK && Executed(resets, m, "", after, n)
    ensures match m.f.state
            case BodyIdentityEof => n == 0 && after.log == m.log + [MessageComplete(SnapshotOf(m.f))]
                                    && after.f == if resets(after.log) then Init(m.f.typ) else m.f
            case StartReq => n == 0 && after == m
            case StartRes => n == 0 && after == m
            case Dead => n == 0 && after == m
            case _ => n == 1 && after.log == m.log && after.f == m.f.(errno := HPE_INVALID_EOF_STATE)
  {
  }

  /** What is left of the fields where a message may start: line ends before a response clear flags and length. */
  function Skipped(f: Fields, n: nat): Fields {
    if n == 0 then f
    else if f.state.StartRes? then f.(nread := f.nread + n, flags := NO_FLAGS, contentLength := ULLONG_MAX)
    else f.(nread := f.nread + n)
  }

  /** Line ends before a message are skipped. */
  lemma {:induction false} LeadingLines(resets: Policy, m: Machine, t: string) returns (m': Machine)
    requires m.f.state.StartReq? || m.f.state.StartRes?
    requires m.f.nread + |t| <= HTTP_MAX_HEADER_SIZE && forall i | 0 <= i < |t| :: t[i] == CR || t[i] == LF
    ensures Reads(resets, m, t, m') && m' == m.(f := Skipped(m.f, |t|))
    decreases |t|
  {
    hide Step, Reads, Run;
    if t == "" {
      m' := m;
      ReadsNothing(resets, m);
    } else {
      LeadingByte(resets, m, t[0]);
      m' := LeadingLines(resets, m.(f := Skipped(m.f, 1)), t[1..]);
      ReadsCons(resets, m, m.(f := Skipped(m.f, 1)), t, m');
    }
  }

  lemma LeadingByte(resets: Policy, m: Machine, ch: char)
    requires (m.f.state.StartReq? || m.f.state.StartRes?) && (ch == CR || ch == LF) && m.f.nread < HTTP_MAX_HEADER_SIZE
    ensures Step(resets, m, ch) == (m.(f := Skipped(m.f, 1)), Going)
  {
    hide Switch;
    Opened(Counted(m.f), ch);
    StepBreak(resets, m, ch);
  }
}
