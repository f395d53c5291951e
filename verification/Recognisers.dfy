/** The incremental recognisers of header names and values equal a plain comparison, and what a whole
    header line does to the parser. */
module Recognisers {
  import opened Bytes
  import opened HttpTypes
  import opened Dispatch
  import opened EventLog
  import opened Machine

  // ---------- Single steps ----------

  function Counted(f: Fields): Fields {
    f.(nread := f.nread + 1)
  }

  /** A header byte whose case breaks without a notification. */
  lemma StepBreak(resets: Policy, m: Machine, ch: char)
    requires ParsingHeader(m.f.state) && m.f.nread < HTTP_MAX_HEADER_SIZE
    requires var a := Switch(Counted(m.f), ch); a.exit.Break? && a.notice.Silent?
    ensures var a := Switch(Counted(m.f), ch);
      Step(resets, m, ch) == (Machine(a.f, Emit(m.log, m.f.state, a, ch)), Going)
  {
    hide Switch, Emit;
  }

  /** A header byte of a state that calls nothing back. */
  lemma StepGo(resets: Policy, m: Machine, ch: char, g: Fields)
    requires ParsingHeader(m.f.state) && m.f.nread < HTTP_MAX_HEADER_SIZE && KindOf(m.f.state).None? && !ReadsBody(m.f.state)
    requires Switch(Counted(m.f), ch) == Go(g)
    ensures Step(resets, m, ch) == (m.(f := g), Going)
  {
    hide Switch;
    StepBreak(resets, m, ch);
  }

  /** A header byte that is dispatched again. */
  lemma StepAgain(resets: Policy, m: Machine, ch: char)
    requires ParsingHeader(m.f.state) && m.f.nread < HTTP_MAX_HEADER_SIZE
    requires var a := Switch(Counted(m.f), ch); a.exit.Reexecute? && a.notice.Silent?
    ensures var a := Switch(Counted(m.f), ch);
      Step(resets, m, ch) == Dispatched(resets, Machine(a.f, Emit(m.log, m.f.state, a, ch)), ch)
  {
    hide Switch, Emit;
  }

  // ---------- Header names ----------

  /** The first letters of the literals, which tell them apart. */
  lemma TextFacts()
    ensures Text(CONNECTION)[0] == 'c' && Text(CONNECTION)[1] == 'o' && Text(CONNECTION)[2] == 'n' && Text(CONNECTION)[3] == 'n'
    ensures Text(CONTENT_LENGTH)[0] == 'c' && Text(CONTENT_LENGTH)[1] == 'o' && Text(CONTENT_LENGTH)[2] == 'n' && Text(CONTENT_LENGTH)[3] == 't'
    ensures Text(PROXY_CONNECTION)[0] == 'p' && Text(TRANSFER_ENCODING)[0] == 't' && Text(UPGRADE)[0] == 'u'
  {
  }

  predicate Starts(l: string, lit: Literal) {
    |l| <= Length(lit) && l == Text(lit)[..|l|]
  }

  lemma StartsMore(l: string, c: char, lit: Literal)
    ensures Starts(l + [c], lit) <==> Starts(l, lit) && |l| < Length(lit) && c == Text(lit)[|l|]
  {
    hide Text;
    if Starts(l + [c], lit) {
      assert l == (l + [c])[..|l|] == Text(lit)[..|l|];
      assert c == (l + [c])[|l|];
    }
    if Starts(l, lit) && |l| < Length(lit) && c == Text(lit)[|l|] {
      assert l + [c] == Text(lit)[..|l| + 1];
    }
  }

  /** The header state for a literal that `l` starts or equals. */
  function Progress(l: string, lit: Literal, matching: HeaderState, done: HeaderState): HeaderState {
    if |l| == Length(lit) then done else matching
  }

  /** The header state after the lower-cased, non-empty beginning `l` of a name. */
  function NameProgress(l: string): HeaderState {
    if |l| <= 3 && Starts(l, CONNECTION) then (if |l| == 1 then HC else if |l| == 2 then HCO else HCON)
    else if Starts(l, CONNECTION) then Progress(l, CONNECTION, HMatchingConnection, HConnection)
    else if Starts(l, CONTENT_LENGTH) then Progress(l, CONTENT_LENGTH, HMatchingContentLength, HContentLength)
    else if Starts(l, PROXY_CONNECTION) then Progress(l, PROXY_CONNECTION, HMatchingProxyConnection, HConnection)
    else if Starts(l, TRANSFER_ENCODING) then Progress(l, TRANSFER_ENCODING, HMatchingTransferEncoding, HTransferEncoding)
    else if Starts(l, UPGRADE) then Progress(l, UPGRADE, HMatchingUpgrade, HUpgrade)
    else HGeneral
  }

  predicate Tracks(f: Fields, l: string) {
    l != "" && f.headerState == NameProgress(l) && (f.headerState.HGeneral? || f.index == |l| - 1)
  }

  lemma TrackFirst(c: char)
    ensures NameProgress([c]) == FirstHeaderState(c)
  {
    hide Text;
    TextFacts();
    assert forall lit :: Text(lit)[..1] == [Text(lit)[0]];
  }

  /** A beginning belongs to one literal only, but for the three letters that two of them share. */
  lemma Apart(l: string)
    requires l != ""
    ensures Starts(l, CONNECTION) ==> !Starts(l, PROXY_CONNECTION) && !Starts(l, TRANSFER_ENCODING) && !Starts(l, UPGRADE)
    ensures Starts(l, CONTENT_LENGTH) ==> !Starts(l, PROXY_CONNECTION) && !Starts(l, TRANSFER_ENCODING) && !Starts(l, UPGRADE)
    ensures Starts(l, PROXY_CONNECTION) ==> !Starts(l, TRANSFER_ENCODING) && !Starts(l, UPGRADE)
    ensures Starts(l, TRANSFER_ENCODING) ==> !Starts(l, UPGRADE)
    ensures |l| <= 3 ==> (Starts(l, CONNECTION) <==> Starts(l, CONTENT_LENGTH))
    ensures |l| > 3 ==> !(Starts(l, CONNECTION) && Starts(l, CONTENT_LENGTH))
  {
    hide Text;
    TextFacts();
    forall lit | Starts(l, lit)
      ensures l[0] == Text(lit)[0] && (|l| > 3 ==> l[3] == Text(lit)[3])
    {
      assert l[0] == Text(lit)[..|l|][0];
      if |l| > 3 {
        assert l[3] == Text(lit)[..|l|][3];
      }
    }
    if |l| <= 3 {
      assert Text(CONNECTION)[..|l|] == Text(CONTENT_LENGTH)[..|l|];
    }
  }

  lemma TrackMore(f: Fields, l: string, ch: char)
    requires Tracks(f, l) && IsToken(ch)
    ensures Tracks(SwitchFieldName(f, ch), l + [Token(ch)])
  {
    hide Text, Starts, Token, IsToken;
    var c := Token(ch);
    TokenNotBlank(ch);
    TextFacts();
    Apart(l);
    Apart(l + [c]);
    StartsMore(l, c, CONNECTION);
    StartsMore(l, c, CONTENT_LENGTH);
    StartsMore(l, c, PROXY_CONNECTION);
    StartsMore(l, c, TRANSFER_ENCODING);
    StartsMore(l, c, UPGRADE);
  }

  lemma TokenNotBlank(ch: char)
    requires IsToken(ch)
    ensures ch != ' ' && ch != '\t' && ch != CR && ch != LF && ch != ':' && Token(ch) == ToLower(ch)
  {
  }

  predicate AtLineStart(s: State) {
    s.HeaderFieldStart? || s.HeaderValueLws?
  }

  /** A byte that does not continue a line starts the next one. */
  lemma AfterLine(f: Fields, ch: char)
    requires f.state.HeaderValueLws? && IsToken(ch)
    ensures Switch(f, ch) == Again(To(f, HeaderFieldStart))
  {
    hide Switch, IsToken;
    TokenNotBlank(ch);
    Opened(f, ch);
  }

  lemma StartsName(f: Fields, ch: char)
    requires f.state.HeaderFieldStart? && IsToken(ch)
    ensures Switch(f, ch) ==
      Mark(f.(index := 0, state := HeaderField, headerState := FirstHeaderState(Token(ch))), OnHeaderField)
  {
    hide Switch, IsToken, Token, FirstHeaderState;
    TokenNotBlank(ch);
    Opened(f, ch);
  }

  lemma FirstNameByte(resets: Policy, m: Machine, ch: char)
    requires AtLineStart(m.f.state) && IsToken(ch) && m.f.nread < HTTP_MAX_HEADER_SIZE
    ensures Step(resets, m, ch) ==
      (Machine(Counted(m.f).(index := 0, state := HeaderField, headerState := FirstHeaderState(Token(ch))),
               Push(m.log, Data(OnHeaderField, [ch]))), Going)
  {
    hide Switch, Push, IsToken, Token, FirstHeaderState;
    var f := Counted(m.f);
    if m.f.state.HeaderValueLws? {
      AfterLine(f, ch);
      StepAgain(resets, m, ch);
      StartsName(To(f, HeaderFieldStart), ch);
    } else {
      StartsName(f, ch);
      StepBreak(resets, m, ch);
    }
  }

  lemma NameByte(resets: Policy, m: Machine, l: string, ch: char)
    requires m.f.state.HeaderField? && Tracks(m.f, l) && IsToken(ch) && m.f.nread < HTTP_MAX_HEADER_SIZE
    ensures Step(resets, m, ch) == (Machine(SwitchFieldName(Counted(m.f), ch), Push(m.log, Data(OnHeaderField, [ch]))), Going)
  {
    hide Switch, Push, IsToken, SwitchFieldName, Starts;
    Opened(Counted(m.f), ch);
    StepBreak(resets, m, ch);
  }

  lemma LowerCons(l: string, s: string)
    requires s != ""
    ensures l + LowerString(s) == l + [ToLower(s[0])] + LowerString(s[1..])
  {
  }

  lemma {:induction false} NameTail(resets: Policy, m: Machine, l: string, rest: string) returns (m': Machine)
    requires m.f.state.HeaderField? && Tracks(m.f, l) && EndsWith(m.log, OnHeaderField)
    requires AllToken(rest) && m.f.nread + |rest| <= HTTP_MAX_HEADER_SIZE
    ensures Reads(resets, m, rest, m')
    ensures m'.f == m.f.(index := m'.f.index, headerState := m'.f.headerState, nread := m.f.nread + |rest|)
    ensures Tracks(m'.f, l + LowerString(rest))
    ensures m'.log == Push(m.log, Data(OnHeaderField, rest))
    decreases |rest|
  {
    hide Step, Push, IsToken, SwitchFieldName, NameProgress, Reads, Run, LowerString, ToLower, Token;
    if rest == "" {
      m' := m;
      ReadsNothing(resets, m);
      PushNothing(m.log, OnHeaderField);
      assert l + LowerString(rest) == l;
    } else {
      NameByte(resets, m, l, rest[0]);
      TrackMore(Counted(m.f), l, rest[0]);
      TokenNotBlank(rest[0]);
      var m1 := Machine(SwitchFieldName(Counted(m.f), rest[0]), Push(m.log, Data(OnHeaderField, [rest[0]])));
      PushCons(m.log, OnHeaderField, rest);
      m' := NameTail(resets, m1, l + [ToLower(rest[0])], rest[1..]);
      ReadsCons(resets, m, m1, rest, m');
      LowerCons(l, rest);
    }
  }

  // ---------- What a name is ----------

  datatype HeaderName = OtherHeader | ConnectionHeader | LengthHeader | EncodingHeader | UpgradeHeader

  /** The comparison that the recogniser stands for. */
  function Classify(name: string): HeaderName {
    var l := LowerString(name);
    if l == Text(CONNECTION) || l == Text(PROXY_CONNECTION) then ConnectionHeader
    else if l == Text(CONTENT_LENGTH) then LengthHeader
    else if l == Text(TRANSFER_ENCODING) then EncodingHeader
    else if l == Text(UPGRADE) then UpgradeHeader
    else OtherHeader
  }

  function Recognised(h: HeaderState): HeaderName {
    if h.HConnection? then ConnectionHeader
    else if h.HContentLength? then LengthHeader
    else if h.HTransferEncoding? then EncodingHeader
    else if h.HUpgrade? then UpgradeHeader
    else OtherHeader
  }

  lemma StartsWhole(l: string, lit: Literal)
    ensures Starts(l, lit) && |l| == Length(lit) <==> l == Text(lit)
  {
    hide Text;
    assert Text(lit)[..|Text(lit)|] == Text(lit);
  }

  lemma ProgressRecognises(name: string)
    requires name != ""
    ensures Recognised(NameProgress(LowerString(name))) == Classify(name)
  {
    hide Text, Starts;
    var l := LowerString(name);
    Apart(l);
    StartsWhole(l, CONNECTION);
    StartsWhole(l, PROXY_CONNECTION);
    StartsWhole(l, CONTENT_LENGTH);
    StartsWhole(l, TRANSFER_ENCODING);
    StartsWhole(l, UPGRADE);
  }

  /** No value has been looked at. */
  predicate NameOnly(h: HeaderState) {
    !h.HConnectionKeepAlive? && !h.HConnectionClose? && !h.HTransferEncodingChunked?
  }

  lemma ProgressNames(l: string)
    ensures NameOnly(NameProgress(l))
  {
    hide Starts;
  }

  /** After a whole header name the header state names one of the five headers if and only if the name
      equals its literal, ignoring case. */
  lemma NameRecognised(resets: Policy, m: Machine, name: string) returns (m': Machine)
    requires AtLineStart(m.f.state) && name != "" && AllToken(name) && m.f.nread + |name| <= HTTP_MAX_HEADER_SIZE
    ensures Reads(resets, m, name, m')
    ensures m'.f == m.f.(state := HeaderField, index := m'.f.index, headerState := m'.f.headerState, nread := m.f.nread + |name|)
    ensures Recognised(m'.f.headerState) == Classify(name) && NameOnly(m'.f.headerState)
    ensures m'.log == Push(m.log, Data(OnHeaderField, name))
  {
    hide Step, Push, IsToken, Classify, Recognised, NameOnly, NameProgress, Reads, Run, LowerString, ToLower, Token;
    FirstNameByte(resets, m, name[0]);
    TrackFirst(Token(name[0]));
    TokenNotBlank(name[0]);
    var m1 := Step(resets, m, name[0]).0;
    PushCons(m.log, OnHeaderField, name);
    m' := NameTail(resets, m1, [ToLower(name[0])], name[1..]);
    ReadsCons(resets, m, m1, name, m');
    LowerCons("", name);
    assert [ToLower(name[0])] + LowerString(name[1..]) == LowerString(name);
    ProgressRecognises(name);
    ProgressNames(LowerString(name));
  }
}
