/** Header values, and what a whole header line does to the parser. */
module HeaderLines {
  import opened Bytes
  import opened HttpTypes
  import opened Dispatch
  import opened EventLog
  import opened Machine
  import opened Recognisers
  import opened Accumulators

  // ---------- Literals in values ----------

  /** As far as `v` goes it is the literal, ignoring case. */
  predicate Agrees(v: string, lit: Literal) {
    forall i | 0 <= i < |v| && i < Length(lit) :: ToLower(v[i]) == Text(lit)[i]
  }

  /** The literal, ignoring case, followed only by spaces. */
  predicate IsLiteral(v: string, lit: Literal) {
    |v| >= Length(lit) && Agrees(v, lit) && forall i | Length(lit) <= i < |v| :: v[i] == ' '
  }

  function LitProgress(v: string, lit: Literal, matching: HeaderState, done: HeaderState): HeaderState {
    if |v| < Length(lit) then (if Agrees(v, lit) then matching else HGeneral)
    else if IsLiteral(v, lit) then done
    else HGeneral
  }

  predicate Matchers(lit: Literal, matching: HeaderState, done: HeaderState) {
    || (lit.CHUNKED? && matching.HMatchingTransferEncodingChunked? && done.HTransferEncodingChunked?)
    || (lit.KEEP_ALIVE? && matching.HMatchingConnectionKeepAlive? && done.HConnectionKeepAlive?)
    || (lit.CLOSE? && matching.HMatchingConnectionClose? && done.HConnectionClose?)
  }

  predicate LitTracks(f: Fields, v: string, lit: Literal, matching: HeaderState, done: HeaderState) {
    v != "" && f.headerState == LitProgress(v, lit, matching, done) && (f.headerState == matching ==> f.index == |v| - 1)
  }

  lemma AgreesMore(v: string, ch: char, lit: Literal)
    ensures Agrees(v + [ch], lit) <==> Agrees(v, lit) && (|v| < Length(lit) ==> ToLower(ch) == Text(lit)[|v|])
    ensures IsLiteral(v + [ch], lit) <==>
      if |v| >= Length(lit) then IsLiteral(v, lit) && ch == ' '
      else |v| + 1 == Length(lit) && Agrees(v + [ch], lit)
  {
    hide Text, ToLower;
    var w := v + [ch];
    assert w[|v|] == ch;
    assert forall i | 0 <= i < |v| :: w[i] == v[i];
  }

  predicate LetterOrDash(c: char) {
    'a' <= c <= 'z' || c == '-'
  }

  lemma TextLetters()
    ensures forall i | 0 <= i < Length(CHUNKED) :: LetterOrDash(Text(CHUNKED)[i])
    ensures forall i | 0 <= i < Length(KEEP_ALIVE) :: LetterOrDash(Text(KEEP_ALIVE)[i])
    ensures forall i | 0 <= i < Length(CLOSE) :: LetterOrDash(Text(CLOSE)[i])
    ensures Text(CHUNKED)[0] == 'c' && Text(KEEP_ALIVE)[0] == 'k' && Text(CLOSE)[0] == 'c'
  {
  }

  /** LOWER is the lower case of every byte that can be compared with a letter or a dash, CR excepted. */
  lemma LowerIs(ch: char, c: char)
    requires ch != CR && LetterOrDash(c)
    ensures Lower(ch) == c as int <==> ToLower(ch) == c
  {
  }

  lemma LitMore(f: Fields, v: string, ch: char, lit: Literal, matching: HeaderState, done: HeaderState)
    requires Matchers(lit, matching, done) && LitTracks(f, v, lit, matching, done) && ch != CR
    ensures LitTracks(SwitchValueText(f, ch), v + [ch], lit, matching, done)
  {
    hide Text, ToLower, Lower, Agrees, IsLiteral;
    AgreesMore(v, ch, lit);
    TextLetters();
    if |v| < Length(lit) {
      LowerIs(ch, Text(lit)[|v|]);
    }
  }

  lemma LitFirst(ch: char, lit: Literal, matching: HeaderState, done: HeaderState)
    requires Matchers(lit, matching, done) && ch != CR
    ensures LitProgress([ch], lit, matching, done) == if Lower(ch) == Text(lit)[0] as int then matching else HGeneral
  {
    hide Text, ToLower, Lower;
    TextLetters();
    LowerIs(ch, Text(lit)[0]);
  }

  /** The header state after the non-empty beginning `v` of the value of a header of kind `n`. */
  function ValueProgress(n: HeaderName, v: string): HeaderState {
    if n.EncodingHeader? then LitProgress(v, CHUNKED, HMatchingTransferEncodingChunked, HTransferEncodingChunked)
    else if n.ConnectionHeader? then
      var k := LitProgress(v, KEEP_ALIVE, HMatchingConnectionKeepAlive, HConnectionKeepAlive);
      if k.HGeneral? then LitProgress(v, CLOSE, HMatchingConnectionClose, HConnectionClose) else k
    else HGeneral
  }

  predicate Matching(h: HeaderState) {
    h.HMatchingTransferEncodingChunked? || h.HMatchingConnectionKeepAlive? || h.HMatchingConnectionClose?
  }

  predicate ValueTracks(f: Fields, n: HeaderName, v: string) {
    v != "" && f.headerState == ValueProgress(n, v) && (Matching(f.headerState) ==> f.index == |v| - 1)
  }

  lemma NotBoth(v: string)
    requires v != ""
    ensures LitProgress(v, KEEP_ALIVE, HMatchingConnectionKeepAlive, HConnectionKeepAlive).HGeneral?
         || LitProgress(v, CLOSE, HMatchingConnectionClose, HConnectionClose).HGeneral?
  {
    hide Text, ToLower;
    TextLetters();
  }

  lemma ValueMore(f: Fields, n: HeaderName, v: string, ch: char)
    requires ValueTracks(f, n, v) && ch != CR
    ensures ValueTracks(SwitchValueText(f, ch), n, v + [ch])
  {
    hide LitProgress;
    if n.EncodingHeader? {
      LitMore(f, v, ch, CHUNKED, HMatchingTransferEncodingChunked, HTransferEncodingChunked);
      LitRange(v, CHUNKED, HMatchingTransferEncodingChunked, HTransferEncodingChunked);
      LitRange(v + [ch], CHUNKED, HMatchingTransferEncodingChunked, HTransferEncodingChunked);
    } else if n.ConnectionHeader? {
      NotBoth(v);
      NotBoth(v + [ch]);
      LitRange(v, KEEP_ALIVE, HMatchingConnectionKeepAlive, HConnectionKeepAlive);
      LitRange(v, CLOSE, HMatchingConnectionClose, HConnectionClose);
      LitRange(v + [ch], KEEP_ALIVE, HMatchingConnectionKeepAlive, HConnectionKeepAlive);
      LitRange(v + [ch], CLOSE, HMatchingConnectionClose, HConnectionClose);
      GeneralStays(v, ch, KEEP_ALIVE, HMatchingConnectionKeepAlive, HConnectionKeepAlive);
      GeneralStays(v, ch, CLOSE, HMatchingConnectionClose, HConnectionClose);
      if !LitProgress(v, KEEP_ALIVE, HMatchingConnectionKeepAlive, HConnectionKeepAlive).HGeneral? {
        LitMore(f, v, ch, KEEP_ALIVE, HMatchingConnectionKeepAlive, HConnectionKeepAlive);
      } else {
        LitMore(f, v, ch, CLOSE, HMatchingConnectionClose, HConnectionClose);
      }
    }
  }

  lemma LitRange(v: string, lit: Literal, matching: HeaderState, done: HeaderState)
    ensures LitProgress(v, lit, matching, done) in {matching, done, HGeneral}
  {
  }

  lemma GeneralStays(v: string, ch: char, lit: Literal, matching: HeaderState, done: HeaderState)
    requires v != "" && Matchers(lit, matching, done)
    ensures LitProgress(v, lit, matching, done).HGeneral? ==> LitProgress(v + [ch], lit, matching, done).HGeneral?
  {
    hide Text, ToLower, Agrees, IsLiteral;
    AgreesMore(v, ch, lit);
  }

  // ---------- Values ----------

  predicate Blank(c: char) {
    c == ' ' || c == '\t'
  }

  /** A value as printed after its name: no line ends in it, and no leading blank. */
  predicate LegalValue(v: string) {
    && (forall i | 0 <= i < |v| :: v[i] != CR && v[i] != LF)
    && (v != "" ==> !Blank(v[0]))
  }

  lemma ValueByte(resets: Policy, m: Machine, n: HeaderName, v: string, ch: char)
    requires m.f.state.HeaderValue? && ValueTracks(m.f, n, v) && ch != CR && ch != LF && m.f.nread < HTTP_MAX_HEADER_SIZE
    ensures Step(resets, m, ch) == (Machine(SwitchValueText(Counted(m.f), ch), Push(m.log, Data(OnHeaderValue, [ch]))), Going)
  {
    hide Switch, Push, SwitchValueText, LitProgress;
    LitRange(v, CHUNKED, HMatchingTransferEncodingChunked, HTransferEncodingChunked);
    LitRange(v, KEEP_ALIVE, HMatchingConnectionKeepAlive, HConnectionKeepAlive);
    LitRange(v, CLOSE, HMatchingConnectionClose, HConnectionClose);
    Opened(Counted(m.f), ch);
    StepBreak(resets, m, ch);
  }

  lemma {:induction false} ValueTail(resets: Policy, m: Machine, n: HeaderName, v: string, rest: string) returns (m': Machine)
    requires m.f.state.HeaderValue? && ValueTracks(m.f, n, v) && EndsWith(m.log, OnHeaderValue)
    requires forall i | 0 <= i < |rest| :: rest[i] != CR && rest[i] != LF
    requires m.f.nread + |rest| <= HTTP_MAX_HEADER_SIZE
    ensures Reads(resets, m, rest, m')
    ensures m'.f == m.f.(index := m'.f.index, headerState := m'.f.headerState, nread := m.f.nread + |rest|)
    ensures ValueTracks(m'.f, n, v + rest)
    ensures m'.log == Push(m.log, Data(OnHeaderValue, rest))
    decreases |rest|
  {
    hide Step, Push, SwitchValueText, ValueProgress, Reads, Run;
    if rest == "" {
      m' := m;
      ReadsNothing(resets, m);
      PushNothing(m.log, OnHeaderValue);
      assert v + rest == v;
    } else {
      ValueByte(resets, m, n, v, rest[0]);
      ValueMore(Counted(m.f), n, v, rest[0]);
      var m1 := Machine(SwitchValueText(Counted(m.f), rest[0]), Push(m.log, Data(OnHeaderValue, [rest[0]])));
      PushCons(m.log, OnHeaderValue, rest);
      m' := ValueTail(resets, m1, n, v + [rest[0]], rest[1..]);
      ReadsCons(resets, m, m1, rest, m');
      assert v + [rest[0]] + rest[1..] == v + rest;
    }
  }

  function FirstFlags(flags: Flags, n: HeaderName): Flags {
    if n.UpgradeHeader? then flags.(upgrade := true) else flags
  }

  lemma ValueFirst(resets: Policy, m: Machine, n: HeaderName, ch: char)
    requires m.f.state.HeaderValueStart? && Recognised(m.f.headerState) == n && !n.LengthHeader?
    requires !Blank(ch) && ch != CR && ch != LF && m.f.nread < HTTP_MAX_HEADER_SIZE
    ensures Step(resets, m, ch) ==
      (Machine(Counted(m.f).(state := HeaderValue, index := 0, headerState := FirstValueState(m.f.headerState, ch),
                             flags := FirstFlags(m.f.flags, n)),
               Push(m.log, Data(OnHeaderValue, [ch]))), Going)
    ensures FirstValueState(m.f.headerState, ch) == ValueProgress(n, [ch])
  {
    hide Switch, Push, LitProgress, Lower;
    Opened(Counted(m.f), ch);
    StepBreak(resets, m, ch);
    TextLetters();
    LitFirst(ch, CHUNKED, HMatchingTransferEncodingChunked, HTransferEncodingChunked);
    LitFirst(ch, KEEP_ALIVE, HMatchingConnectionKeepAlive, HConnectionKeepAlive);
    LitFirst(ch, CLOSE, HMatchingConnectionClose, HConnectionClose);
  }

  lemma Blanks(resets: Policy, m: Machine, s: string) returns (m': Machine)
    requires m.f.state.HeaderValueStart? && forall i | 0 <= i < |s| :: Blank(s[i])
    requires m.f.nread + |s| <= HTTP_MAX_HEADER_SIZE
    ensures Reads(resets, m, s, m')
    ensures m' == m.(f := m.f.(nread := m.f.nread + |s|))
    decreases |s|
  {
    hide Step, Reads, Run, Switch;
    if s == "" {
      m' := m;
      ReadsNothing(resets, m);
    } else {
      Opened(Counted(m.f), s[0]);
      StepBreak(resets, m, s[0]);
      m' := Blanks(resets, m.(f := Counted(m.f)), s[1..]);
      ReadsCons(resets, m, m.(f := Counted(m.f)), s, m');
    }
  }

  /** The flags after a whole header line, said by comparing whole texts. */
  function LineFlags(flags: Flags, n: HeaderName, v: string): Flags {
    match n
    case EncodingHeader => if IsLiteral(v, CHUNKED) then flags.(chunked := true) else flags
    case ConnectionHeader =>
      if IsLiteral(v, KEEP_ALIVE) then flags.(keepAlive := true)
      else if IsLiteral(v, CLOSE) then flags.(close := true)
      else flags
    case UpgradeHeader => if v != "" then flags.(upgrade := true) else flags
    case _ => flags
  }

  lemma FlagsOfProgress(flags: Flags, n: HeaderName, v: string)
    requires v != "" && !n.LengthHeader?
    ensures FlagsAfterValue(FirstFlags(flags, n), ValueProgress(n, v)) == LineFlags(flags, n, v)
  {
    hide Text, ToLower, Agrees;
    NotBoth(v);
    LiteralAgrees(v, KEEP_ALIVE);
  }

  lemma LiteralAgrees(v: string, lit: Literal)
    ensures IsLiteral(v, lit) ==> Agrees(v, lit) && |v| >= Length(lit)
  {
  }

  // ---------- Lines ----------

  function Crlf(): string {
    [CR, LF]
  }

  /** A line may end with CR and LF or with LF alone. */
  predicate LineEnd(s: string) {
    s == "\r\n" || s == "\n"
  }

  lemma LfAgain(f: Fields)
    requires f.state.HeaderValue?
    ensures Switch(f, LF) == Action(To(f, HeaderAlmostDone), None, Some(OnHeaderValue), Silent, Reexecute)
  {
    hide Switch;
    Opened(f, LF);
  }

  lemma LfAfterValue(f: Fields)
    requires f.state.HeaderAlmostDone?
    ensures Switch(f, LF) == Go(f.(state := HeaderValueLws, flags := FlagsAfterValue(f.flags, f.headerState)))
  {
    hide Switch, FlagsAfterValue;
    Opened(f, LF);
  }

  lemma ValueEndsLf(resets: Policy, m: Machine)
    requires m.f.state.HeaderValue? && m.f.nread < HTTP_MAX_HEADER_SIZE
    ensures Step(resets, m, LF) ==
      (m.(f := Counted(m.f).(state := HeaderValueLws, flags := FlagsAfterValue(m.f.flags, m.f.headerState))), Going)
  {
    hide Switch, FlagsAfterValue;
    var f := Counted(m.f);
    LfAgain(f);
    StepAgain(resets, m, LF);
    LfAfterValue(To(f, HeaderAlmostDone));
  }

  lemma ValueEnd(resets: Policy, m: Machine, end: string) returns (m': Machine)
    requires m.f.state.HeaderValue? && LineEnd(end) && m.f.nread + |end| <= HTTP_MAX_HEADER_SIZE
    ensures Reads(resets, m, end, m')
    ensures m' == m.(f := m.f.(state := HeaderValueLws, flags := FlagsAfterValue(m.f.flags, m.f.headerState), nread := m.f.nread + |end|))
  {
    hide Step, Reads, Run, Switch, FlagsAfterValue;
    if end == "\n" {
      ValueEndsLf(resets, m);
      m' := Step(resets, m, LF).0;
      ReadsOne(resets, m, LF);
      assert end == [LF];
    } else {
      ValueEndsCr(resets, m);
      var m1 := Step(resets, m, CR).0;
      m' := AlmostDone(resets, m1);
      assert end == Crlf();
      ReadsCons(resets, m, m1, end, m');
    }
  }

  lemma ValueEndsCr(resets: Policy, m: Machine)
    requires m.f.state.HeaderValue? && m.f.nread < HTTP_MAX_HEADER_SIZE
    ensures Step(resets, m, CR) == (m.(f := Counted(m.f).(state := HeaderAlmostDone)), Going)
  {
    hide Switch;
    Opened(Counted(m.f), CR);
    StepBreak(resets, m, CR);
  }

  lemma AlmostDone(resets: Policy, m: Machine) returns (m': Machine)
    requires m.f.state.HeaderAlmostDone? && m.f.nread + 1 <= HTTP_MAX_HEADER_SIZE
    ensures Reads(resets, m, Crlf()[1..], m')
    ensures m' == m.(f := m.f.(state := HeaderValueLws, flags := FlagsAfterValue(m.f.flags, m.f.headerState), nread := m.f.nread + 1))
  {
    hide Step, Reads, Run, Switch, FlagsAfterValue;
    Opened(Counted(m.f), LF);
    StepBreak(resets, m, LF);
    m' := Step(resets, m, LF).0;
    ReadsOne(resets, m, LF);
    assert Crlf()[1..] == [LF];
  }

  lemma NoValueStep(resets: Policy, m: Machine, ch: char)
    requires m.f.state.HeaderValueStart? && (ch == CR || ch == LF) && m.f.nread < HTTP_MAX_HEADER_SIZE
    ensures var f := Counted(m.f).(index := 0);
      Step(resets, m, ch) ==
        (Machine(if ch == CR then f.(headerState := HGeneral, state := HeaderAlmostDone) else To(f, HeaderFieldStart),
                 Push(m.log, Data(OnHeaderValue, ""))), Going)
  {
    hide Switch, Push;
    Opened(Counted(m.f), ch);
    StepBreak(resets, m, ch);
  }

  lemma EmptyValueLine(resets: Policy, m: Machine, end: string) returns (m': Machine)
    requires m.f.state.HeaderValueStart? && LineEnd(end) && m.f.nread + |end| <= HTTP_MAX_HEADER_SIZE
    ensures Reads(resets, m, end, m') && AtLineStart(m'.f.state)
    ensures m'.f == m.f.(state := m'.f.state, index := m'.f.index, headerState := m'.f.headerState, nread := m.f.nread + |end|)
    ensures end == "\r\n" ==> m'.f.state.HeaderValueLws? && m'.f.headerState.HGeneral?
    ensures m'.log == Push(m.log, Data(OnHeaderValue, ""))
  {
    hide Step, Reads, Run, Switch, Push;
    NoValueStep(resets, m, end[0]);
    var m1 := Step(resets, m, end[0]).0;
    if end == "\n" {
      m' := m1;
      ReadsOne(resets, m, LF);
      assert end == [LF];
    } else {
      m' := AlmostDone(resets, m1);
      assert end == Crlf();
      ReadsCons(resets, m, m1, end, m');
    }
  }

  /** A length that is not empty must be one that is accepted: it may have blanks among its digits. */
  predicate LegalLength(n: HeaderName, v: string) {
    n.LengthHeader? && v != "" ==> IsLength(v)
  }

  /** The length after a line: the last Content-Length wins. */
  function LineLength(length: nat, n: HeaderName, v: string): nat
    requires LegalLength(n, v)
  {
    if n.LengthHeader? && v != "" then LengthFrom(0, v).value else length
  }

  /** What the parser still knows of the name when a value has been read: that it was a length. */
  function NameLeft(n: HeaderName, v: string): HeaderName {
    if n.LengthHeader? && v != "" then LengthHeader else OtherHeader
  }

  lemma ValueLeaves(n: HeaderName, v: string)
    requires v != "" && !n.LengthHeader?
    ensures Recognised(ValueProgress(n, v)) == NameLeft(n, v)
  {
    hide LitProgress;
    LitRange(v, CHUNKED, HMatchingTransferEncodingChunked, HTransferEncodingChunked);
    LitRange(v, KEEP_ALIVE, HMatchingConnectionKeepAlive, HConnectionKeepAlive);
    LitRange(v, CLOSE, HMatchingConnectionClose, HConnectionClose);
  }

  /** A value and its line end.  Only an empty value with a LF alone lets no other line continue it. */
  lemma ValueLine(resets: Policy, m: Machine, n: HeaderName, v: string, end: string) returns (m': Machine)
    requires m.f.state.HeaderValueStart? && Recognised(m.f.headerState) == n
    requires LegalValue(v) && LegalLength(n, v) && LineEnd(end) && m.f.nread + |v| + |end| <= HTTP_MAX_HEADER_SIZE
    ensures Reads(resets, m, v + end, m') && AtLineStart(m'.f.state)
    ensures m'.f == m.f.(state := m'.f.state, index := m'.f.index, headerState := m'.f.headerState,
                         nread := m.f.nread + |v| + |end|,
                         flags := LineFlags(m.f.flags, n, v), contentLength := LineLength(m.f.contentLength, n, v))
    ensures v != "" || end == "\r\n" ==> m'.f.state.HeaderValueLws? && Recognised(m'.f.headerState) == NameLeft(n, v)
    ensures m'.log == Push(m.log, Data(OnHeaderValue, v))
  {
    hide Step, Reads, Run, Push, ValueProgress, LineEnd, IsLiteral, LengthFrom, FirstValueState;
    if v == "" {
      m' := EmptyValueLine(resets, m, end);
      assert v + end == end;
      EmptyFlags(m.f.flags, n);
      return;
    }
    var m2;
    if n.LengthHeader? {
      m2 := LengthRead(resets, m, v);
    } else {
      ValueFirst(resets, m, n, v[0]);
      FirstTracks(Step(resets, m, v[0]).0.f, n, v[0]);
      var m1 := Step(resets, m, v[0]).0;
      PushCons(m.log, OnHeaderValue, v);
      m2 := ValueTail(resets, m1, n, [v[0]], v[1..]);
      ReadsCons(resets, m, m1, v, m2);
      assert [v[0]] + v[1..] == v;
      FlagsOfProgress(m.f.flags, n, v);
      ValueLeaves(n, v);
    }
    m' := ValueEnd(resets, m2, end);
    ReadsConcat(resets, m, v, m2, end, m');
  }

  lemma EmptyFlags(flags: Flags, n: HeaderName)
    ensures LineFlags(flags, n, "") == flags
  {
  }

  lemma FirstTracks(f: Fields, n: HeaderName, ch: char)
    requires f.headerState == ValueProgress(n, [ch]) && f.index == 0
    ensures ValueTracks(f, n, [ch])
  {
  }

  /** A whole header line: the callbacks it makes, and the flags and the length it leaves, which are
      those of a comparison of whole names and values. */
  lemma HeaderLine(resets: Policy, m: Machine, name: string, blanks: string, v: string, end: string) returns (m': Machine)
    requires AtLineStart(m.f.state) && name != "" && AllToken(name)
    requires forall i | 0 <= i < |blanks| :: Blank(blanks[i])
    requires LegalValue(v) && LegalLength(Classify(name), v) && LineEnd(end)
    requires m.f.nread + |name| + 1 + |blanks| + |v| + |end| <= HTTP_MAX_HEADER_SIZE
    ensures Reads(resets, m, name + ":" + blanks + v + end, m') && AtLineStart(m'.f.state)
    ensures m'.f == m.f.(state := m'.f.state, index := m'.f.index, headerState := m'.f.headerState,
                         nread := m.f.nread + |name| + 1 + |blanks| + |v| + |end|,
                         flags := LineFlags(m.f.flags, Classify(name), v),
                         contentLength := LineLength(m.f.contentLength, Classify(name), v))
    ensures v != "" || end == "\r\n" ==> m'.f.state.HeaderValueLws? && Recognised(m'.f.headerState) == NameLeft(Classify(name), v)
    ensures m'.log == Push(Push(m.log, Data(OnHeaderField, name)), Data(OnHeaderValue, v))
  {
    hide Step, Reads, Run, Push, LineEnd, Classify, Recognised, LegalValue, LegalLength, LineFlags, LineLength, IsToken, NameLeft;
    var m1 := NameRecognised(resets, m, name);
    var m2 := Colon(resets, m1);
    var m3 := Blanks(resets, m2, blanks);
    m' := ValueLine(resets, m3, Classify(name), v, end);
    ReadsConcat(resets, m, name, m1, ":", m2);
    ReadsConcat(resets, m, name + ":", m2, blanks, m3);
    ReadsConcat(resets, m, name + ":" + blanks, m3, v + end, m');
    assert name + ":" + blanks + (v + end) == name + ":" + blanks + v + end;
  }

  lemma NameEnds(resets: Policy, m: Machine, ch: char)
    requires m.f.state.HeaderField? && (ch == CR || ch == LF) && m.f.nread < HTTP_MAX_HEADER_SIZE
    ensures Step(resets, m, ch) == (m.(f := Counted(m.f).(state := if ch == CR then HeaderAlmostDone else HeaderFieldStart)), Going)
  {
    hide Switch;
    Opened(Counted(m.f), ch);
    StepBreak(resets, m, ch);
  }

  lemma NoFlags(flags: Flags, h: HeaderState)
    requires NameOnly(h)
    ensures FlagsAfterValue(flags, h) == flags
  {
  }

  /** A name without a colon is let pass: it is called back, and no value follows. */
  lemma BareName(resets: Policy, m: Machine, name: string, end: string) returns (m': Machine)
    requires AtLineStart(m.f.state) && name != "" && AllToken(name) && LineEnd(end)
    requires m.f.nread + |name| + |end| <= HTTP_MAX_HEADER_SIZE
    ensures Reads(resets, m, name + end, m') && AtLineStart(m'.f.state)
    ensures m'.f == m.f.(state := m'.f.state, index := m'.f.index, headerState := m'.f.headerState, nread := m.f.nread + |name| + |end|)
    ensures m'.log == Push(m.log, Data(OnHeaderField, name))
  {
    hide Step, Reads, Run, Push, Classify, Recognised, IsToken, FlagsAfterValue;
    var m1 := NameRecognised(resets, m, name);
    NameEnds(resets, m1, end[0]);
    var m2 := Step(resets, m1, end[0]).0;
    if end == "\n" {
      m' := m2;
      ReadsOne(resets, m1, LF);
      assert end == [LF];
    } else {
      NoFlags(m2.f.flags, m2.f.headerState);
      m' := AlmostDone(resets, m2);
      assert end == Crlf();
      ReadsCons(resets, m1, m2, end, m');
    }
    ReadsConcat(resets, m, name, m1, end, m');
  }

  lemma FoldStarts(resets: Policy, m: Machine, ch: char)
    requires m.f.state.HeaderValueLws? && Blank(ch) && m.f.nread < HTTP_MAX_HEADER_SIZE
    ensures Step(resets, m, ch) == (m.(f := Counted(m.f).(state := HeaderValueStart)), Going)
  {
    hide Switch;
    Opened(Counted(m.f), ch);
    StepBreak(resets, m, ch);
  }

  /** A line that starts with a blank is read as one more value of the name before it, if the parser still
      knows that: the values are called back joined, without what was between them. */
  lemma FoldedLine(resets: Policy, m: Machine, n: HeaderName, blank: char, blanks: string, v: string, end: string) returns (m': Machine)
    requires m.f.state.HeaderValueLws? && Recognised(m.f.headerState) == n && Blank(blank)
    requires (forall i | 0 <= i < |blanks| :: Blank(blanks[i])) && LegalValue(v) && LegalLength(n, v) && LineEnd(end)
    requires m.f.nread + 1 + |blanks| + |v| + |end| <= HTTP_MAX_HEADER_SIZE
    ensures Reads(resets, m, [blank] + blanks + v + end, m') && AtLineStart(m'.f.state)
    ensures m'.f == m.f.(state := m'.f.state, index := m'.f.index, headerState := m'.f.headerState,
                         nread := m.f.nread + 1 + |blanks| + |v| + |end|,
                         flags := LineFlags(m.f.flags, n, v), contentLength := LineLength(m.f.contentLength, n, v))
    ensures m'.log == Push(m.log, Data(OnHeaderValue, v))
  {
    hide Step, Reads, Run, Push, LineEnd, Recognised, LegalValue, LegalLength, LineFlags, LineLength;
    FoldStarts(resets, m, blank);
    var m1 := Step(resets, m, blank).0;
    ReadsOne(resets, m, blank);
    var m2 := Blanks(resets, m1, blanks);
    m' := ValueLine(resets, m2, n, v, end);
    ReadsConcat(resets, m, [blank], m1, blanks, m2);
    ReadsConcat(resets, m, [blank] + blanks, m2, v + end, m');
    assert [blank] + blanks + (v + end) == [blank] + blanks + v + end;
  }

  /** A header on two lines: its value is called back as one text, the two parts without what was between
      them.  The flags are those of the first part; if the second one is a length it replaces the first. */
  lemma TwoLineHeader(resets: Policy, m: Machine, name: string, v: string, end: string, blank: char, w: string, last: string)
    returns (m': Machine)
    requires AtLineStart(m.f.state) && name != "" && AllToken(name) && LegalValue(v) && LegalLength(Classify(name), v)
    requires LineEnd(end) && (v != "" || end == "\r\n") && LineEnd(last)
    requires Blank(blank) && LegalValue(w) && LegalLength(NameLeft(Classify(name), v), w)
    requires m.f.nread + |name| + 2 + |v| + |end| + 1 + |w| + |last| <= HTTP_MAX_HEADER_SIZE
    ensures Reads(resets, m, name + ":" + " " + v + end + ([blank] + w + last), m') && AtLineStart(m'.f.state)
    ensures m'.f == m.f.(state := m'.f.state, index := m'.f.index, headerState := m'.f.headerState,
                         nread := m.f.nread + |name| + 2 + |v| + |end| + 1 + |w| + |last|,
                         flags := LineFlags(m.f.flags, Classify(name), v),
                         contentLength := if Classify(name).LengthHeader? && v != "" then LengthFrom(0, if w == "" then v else w).value
                                          else m.f.contentLength)
    ensures m'.log == Push(Push(m.log, Data(OnHeaderField, name)), Data(OnHeaderValue, v + w))
  {
    hide Step, Reads, Run, Push, LineEnd, Classify, Recognised, LegalValue, LengthFrom, IsLiteral, IsLength, IsToken;
    var n := Classify(name);
    var m1 := HeaderLine(resets, m, name, " ", v, end);
    m' := FoldedLine(resets, m1, NameLeft(n, v), blank, "", w, last);
    assert [blank] + "" + w + last == [blank] + w + last;
    ReadsConcat(resets, m, name + ":" + " " + v + end, m1, [blank] + w + last, m');
    PushPieces(Push(m.log, Data(OnHeaderField, name)), OnHeaderValue, v, w);
  }

  lemma Colon(resets: Policy, m: Machine) returns (m': Machine)
    requires m.f.state.HeaderField? && m.f.nread < HTTP_MAX_HEADER_SIZE
    ensures Reads(resets, m, ":", m')
    ensures m' == m.(f := m.f.(state := HeaderValueStart, nread := m.f.nread + 1))
  {
    hide Step, Reads, Run, Switch;
    Opened(Counted(m.f), ':');
    StepBreak(resets, m, ':');
    m' := Step(resets, m, ':').0;
    ReadsOne(resets, m, ':');
  }
}
