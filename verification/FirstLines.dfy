/** What the reference parser makes of a request line and of a status line. */
module FirstLines {
  import opened Bytes
  import opened HttpTypes
  import opened Dispatch
  import opened EventLog
  import opened Machine
  import opened Recognisers
  import opened Methods
  import opened HeaderLines
  import opened Numbers

  // ---------- URLs ----------

  /** parse_url_char over a whole text. */
  function UrlEnd(s: State, url: string): State
    decreases |url|
  {
    if url == "" then s else UrlEnd(ParseUrlChar(s, url[0]), url[1..])
  }

  function UrlStart(connect: bool): State {
    if connect then ReqServerStart else ReqSpacesBeforeUrl
  }

  /** A target that may be followed by a space. */
  predicate LegalTarget(connect: bool, url: string) {
    var s := UrlEnd(UrlStart(connect), url);
    url != "" && ReadsUrl(s) && !UrlOpen(s)
  }

  predicate LegalUrl(url: string) {
    LegalTarget(false, url)
  }

  lemma {:induction false} DeadUrl(url: string)
    ensures UrlEnd(Dead, url) == Dead
    decreases |url|
  {
    if url != "" {
      DeadUrl(url[1..]);
    }
  }

  lemma UrlByte(resets: Policy, m: Machine, ch: char)
    requires ReadsUrl(m.f.state) && !ParseUrlChar(m.f.state, ch).Dead? && m.f.nread < HTTP_MAX_HEADER_SIZE
    ensures Step(resets, m, ch) ==
      (Machine(Counted(m.f).(state := ParseUrlChar(m.f.state, ch)), Push(m.log, Data(OnUrl, [ch]))), Going)
  {
    hide Switch, Push;
    Opened(Counted(m.f), ch);
    StepBreak(resets, m, ch);
  }

  lemma {:induction false} UrlTail(resets: Policy, m: Machine, rest: string) returns (m': Machine)
    requires ReadsUrl(m.f.state) && EndsWith(m.log, OnUrl) && m.f.nread + |rest| <= HTTP_MAX_HEADER_SIZE
    requires !UrlEnd(m.f.state, rest).Dead?
    ensures Reads(resets, m, rest, m')
    ensures m' == Machine(m.f.(state := UrlEnd(m.f.state, rest), nread := m.f.nread + |rest|), Push(m.log, Data(OnUrl, rest)))
    decreases |rest|
  {
    hide Step, Reads, Run, Push, ParseUrlChar, ReadsUrl;
    if rest == "" {
      m' := m;
      ReadsNothing(resets, m);
      PushNothing(m.log, OnUrl);
    } else {
      DeadUrl(rest[1..]);
      UrlByte(resets, m, rest[0]);
      PushCons(m.log, OnUrl, rest);
      var m1 := Step(resets, m, rest[0]).0;
      m' := UrlTail(resets, m1, rest[1..]);
      ReadsCons(resets, m, m1, rest, m');
    }
  }

  lemma UrlFirst(resets: Policy, m: Machine, ch: char)
    requires m.f.state.ReqSpacesBeforeUrl? && ch != ' ' && m.f.nread < HTTP_MAX_HEADER_SIZE
    requires !ParseUrlChar(UrlStart(m.f.verb.CONNECT?), ch).Dead?
    ensures Step(resets, m, ch) ==
      (Machine(Counted(m.f).(state := ParseUrlChar(UrlStart(m.f.verb.CONNECT?), ch)), Push(m.log, Data(OnUrl, [ch]))), Going)
  {
    hide Switch, Push;
    Opened(Counted(m.f), ch);
    StepBreak(resets, m, ch);
  }

  lemma SpaceIsDead(s: State)
    ensures ParseUrlChar(s, ' ').Dead?
  {
  }

  lemma UrlSpace(resets: Policy, m: Machine)
    requires ReadsUrl(m.f.state) && !UrlOpen(m.f.state) && m.f.nread < HTTP_MAX_HEADER_SIZE
    ensures Step(resets, m, ' ') == (m.(f := Counted(m.f).(state := ReqHttpStart)), Going)
  {
    hide Switch, Push;
    Opened(Counted(m.f), ' ');
    StepBreak(resets, m, ' ');
  }

  lemma UrlTextRead(resets: Policy, m: Machine, url: string) returns (m': Machine)
    requires m.f.state.ReqSpacesBeforeUrl? && LegalTarget(m.f.verb.CONNECT?, url) && m.f.nread + |url| <= HTTP_MAX_HEADER_SIZE
    ensures Reads(resets, m, url, m')
    ensures m' == Machine(m.f.(state := UrlEnd(UrlStart(m.f.verb.CONNECT?), url), nread := m.f.nread + |url|),
                          Push(m.log, Data(OnUrl, url)))
    ensures ReadsUrl(m'.f.state) && !UrlOpen(m'.f.state)
  {
    hide Step, Reads, Run, Push, ParseUrlChar, ReadsUrl;
    DeadUrl(url[1..]);
    NotDead(UrlEnd(UrlStart(m.f.verb.CONNECT?), url));
    SpaceIsDead(UrlStart(m.f.verb.CONNECT?));
    UrlFirst(resets, m, url[0]);
    PushCons(m.log, OnUrl, url);
    var m1 := Step(resets, m, url[0]).0;
    m' := UrlTail(resets, m1, url[1..]);
    ReadsCons(resets, m, m1, url, m');
  }

  lemma UrlRead(resets: Policy, m: Machine, url: string) returns (m': Machine)
    requires m.f.state.ReqSpacesBeforeUrl? && LegalTarget(m.f.verb.CONNECT?, url) && m.f.nread + |url| + 1 <= HTTP_MAX_HEADER_SIZE
    ensures Reads(resets, m, url + " ", m')
    ensures m' == Machine(m.f.(state := ReqHttpStart, nread := m.f.nread + |url| + 1), Push(m.log, Data(OnUrl, url)))
  {
    hide Step, Reads, Run, Push, ParseUrlChar, ReadsUrl, LegalTarget;
    var m2 := UrlTextRead(resets, m, url);
    UrlSpace(resets, m2);
    m' := Step(resets, m2, ' ').0;
    ReadsOne(resets, m2, ' ');
    ReadsConcat(resets, m, url, m2, " ", m');
  }

  lemma NotDead(s: State)
    requires ReadsUrl(s)
    ensures !s.Dead?
  {
  }

  // ---------- Versions and the end of a request line ----------

  predicate HttpLetter(s: State, ch: char, t: State) {
    || (s.ReqHttpStart? && ch == 'H' && t.ReqHttpH?)
    || (s.ReqHttpH? && ch == 'T' && t.ReqHttpHT?)
    || (s.ReqHttpHT? && ch == 'T' && t.ReqHttpHTT?)
    || (s.ReqHttpHTT? && ch == 'P' && t.ReqHttpHTTP?)
    || (s.ReqHttpHTTP? && ch == '/' && t.ReqFirstHttpMajor?)
  }

  lemma HttpLetterIs(f: Fields, ch: char, t: State)
    requires HttpLetter(f.state, ch, t)
    ensures Switch(f, ch) == Go(To(f, t)) && ParsingHeader(f.state) && KindOf(f.state).None? && !ReadsBody(f.state)
  {
    hide Switch;
    Opened(f, ch);
  }

  lemma RequestHttpByte(resets: Policy, m: Machine, ch: char, s: State)
    requires m.f.nread < HTTP_MAX_HEADER_SIZE && HttpLetter(m.f.state, ch, s)
    ensures Step(resets, m, ch) == (m.(f := To(Counted(m.f), s)), Going)
  {
    hide Switch, HttpLetter, ParsingHeader, KindOf, ReadsBody;
    HttpLetterIs(Counted(m.f), ch, s);
    StepGo(resets, m, ch, To(Counted(m.f), s));
  }

  lemma HttpWord(resets: Policy, m: Machine) returns (m': Machine)
    requires m.f.state.ReqHttpStart? && m.f.nread + 5 <= HTTP_MAX_HEADER_SIZE
    ensures Reads(resets, m, "HTTP/", m')
    ensures m' == m.(f := m.f.(state := ReqFirstHttpMajor, nread := m.f.nread + 5))
  {
    hide Step, Reads, Run;
    var m1 := m.(f := m.f.(state := ReqHttpH, nread := m.f.nread + 1));
    var m2 := m.(f := m.f.(state := ReqHttpHT, nread := m.f.nread + 2));
    var m3 := m.(f := m.f.(state := ReqHttpHTT, nread := m.f.nread + 3));
    var m4 := m.(f := m.f.(state := ReqHttpHTTP, nread := m.f.nread + 4));
    m' := m.(f := m.f.(state := ReqFirstHttpMajor, nread := m.f.nread + 5));
    RequestHttpByte(resets, m, 'H', ReqHttpH);
    RequestHttpByte(resets, m1, 'T', ReqHttpHT);
    RequestHttpByte(resets, m2, 'T', ReqHttpHTT);
    RequestHttpByte(resets, m3, 'P', ReqHttpHTTP);
    RequestHttpByte(resets, m4, '/', ReqFirstHttpMajor);
    ReadsOne(resets, m4, '/');
    ReadsCons(resets, m3, m4, "P/", m');
    ReadsCons(resets, m2, m3, "TP/", m');
    ReadsCons(resets, m1, m2, "TTP/", m');
    ReadsCons(resets, m, m1, "HTTP/", m');
  }

  /** More spaces than one, before the target or before the version. */
  predicate Spaces(s: string) {
    forall i | 0 <= i < |s| :: s[i] == ' '
  }

  lemma SpaceStays(f: Fields)
    requires f.state.ReqSpacesBeforeUrl? || f.state.ReqHttpStart?
    ensures Switch(f, ' ') == Go(f) && ParsingHeader(f.state) && KindOf(f.state).None? && !ReadsBody(f.state)
  {
    hide Switch;
    Opened(f, ' ');
  }

  lemma {:induction false} SpacesRead(resets: Policy, m: Machine, gap: string) returns (m': Machine)
    requires (m.f.state.ReqSpacesBeforeUrl? || m.f.state.ReqHttpStart?) && Spaces(gap) && m.f.nread + |gap| <= HTTP_MAX_HEADER_SIZE
    ensures Reads(resets, m, gap, m') && m' == m.(f := m.f.(nread := m.f.nread + |gap|))
    decreases |gap|
  {
    hide Step, Reads, Run, Switch;
    if gap == "" {
      m' := m;
      ReadsNothing(resets, m);
    } else {
      SpaceStays(Counted(m.f));
      StepGo(resets, m, ' ', Counted(m.f));
      m' := SpacesRead(resets, m.(f := Counted(m.f)), gap[1..]);
      ReadsCons(resets, m, m.(f := Counted(m.f)), gap, m');
    }
  }

  predicate VersionMark(s: State, ch: char, t: State) {
    || (s.ReqHttpMajor? && ch == '.' && t.ReqFirstHttpMinor?)
    || (s.ReqHttpMinor? && ch == CR && t.ReqLineAlmostDone?)
    || (s.ReqHttpMinor? && ch == LF && t.HeaderFieldStart?)
    || (s.ReqLineAlmostDone? && ch == LF && t.HeaderFieldStart?)
  }

  lemma MarkIs(f: Fields, ch: char, t: State)
    requires VersionMark(f.state, ch, t)
    ensures Switch(f, ch) == Go(To(f, t)) && ParsingHeader(f.state) && KindOf(f.state).None? && !ReadsBody(f.state)
  {
    hide Switch;
    Opened(f, ch);
  }

  lemma MarkRead(resets: Policy, m: Machine, ch: char, t: State) returns (m': Machine)
    requires m.f.nread < HTTP_MAX_HEADER_SIZE && VersionMark(m.f.state, ch, t)
    ensures Reads(resets, m, [ch], m') && m' == m.(f := To(Counted(m.f), t))
  {
    hide Switch, Step, Reads, VersionMark;
    MarkIs(Counted(m.f), ch, t);
    StepGo(resets, m, ch, To(Counted(m.f), t));
    m' := m.(f := To(Counted(m.f), t));
    ReadsOne(resets, m, ch);
  }

  lemma LineEndRead(resets: Policy, m: Machine, end: string) returns (m': Machine)
    requires m.f.state.ReqHttpMinor? && LineEnd(end) && m.f.nread + |end| <= HTTP_MAX_HEADER_SIZE
    ensures Reads(resets, m, end, m') && m' == m.(f := m.f.(state := HeaderFieldStart, nread := m.f.nread + |end|))
  {
    hide Step, Reads, Run;
    if end == "\n" {
      m' := MarkRead(resets, m, LF, HeaderFieldStart);
      assert end == [LF];
    } else {
      var m1 := MarkRead(resets, m, CR, ReqLineAlmostDone);
      m' := MarkRead(resets, m1, LF, HeaderFieldStart);
      ReadsConcat(resets, m, [CR], m1, [LF], m');
      assert end == [CR] + [LF];
    }
  }

  /** The version of a request in any spelling, and the end of its line. */
  lemma RequestVersionRead(resets: Policy, m: Machine, major: string, minor: string, end: string) returns (m': Machine)
    requires m.f.state.ReqFirstHttpMajor? && IsNumber(ReqMajor, major) && IsNumber(ReqMinor, minor) && LineEnd(end)
    requires m.f.nread + |major| + 1 + |minor| + |end| <= HTTP_MAX_HEADER_SIZE
    ensures Reads(resets, m, major + "." + minor + end, m')
    ensures m' == m.(f := m.f.(state := HeaderFieldStart, httpMajor := DecValue(major), httpMinor := DecValue(minor),
                               nread := m.f.nread + |major| + 1 + |minor| + |end|))
  {
    hide Step, Reads, Run, DecValue, VersionMark;
    var m1 := NumberTextRead(resets, m, ReqMajor, major);
    assert VersionMark(ReqHttpMajor, '.', ReqFirstHttpMinor) by { DotMarks(); }
    var m2 := MarkRead(resets, m1, '.', ReqFirstHttpMinor);
    var m3 := NumberTextRead(resets, m2, ReqMinor, minor);
    m' := LineEndRead(resets, m3, end);
    ReadsConcat(resets, m, major, m1, ".", m2);
    ReadsConcat(resets, m, major + ".", m2, minor, m3);
    ReadsConcat(resets, m, major + "." + minor, m3, end, m');
  }

  lemma DotMarks()
    ensures VersionMark(ReqHttpMajor, '.', ReqFirstHttpMinor)
  {
  }

  /** A request line in any spelling: the word, the target and the version, with more spaces between them. */
  function AnyLine(w: string, more: string, url: string, further: string, major: string, minor: string, end: string): string {
    w + " " + more + (url + " ") + further + "HTTP/" + (major + "." + minor + end)
  }

  predicate LegalLine(w: string, v: Method, more: string, url: string, further: string, major: string, minor: string, end: string) {
    && TakenFor(w, v) && LegalTarget(v.CONNECT?, url) && Spaces(more) && Spaces(further)
    && IsNumber(ReqMajor, major) && IsNumber(ReqMinor, minor) && LineEnd(end)
  }

  lemma AnyLineRead(resets: Policy, m: Machine, w: string, v: Method, more: string, url: string, further: string,
                    major: string, minor: string, end: string) returns (m': Machine)
    requires m.f.state.StartReq? && LegalLine(w, v, more, url, further, major, minor, end)
    requires m.f.nread + |AnyLine(w, more, url, further, major, minor, end)| <= HTTP_MAX_HEADER_SIZE
    ensures Reads(resets, m, AnyLine(w, more, url, further, major, minor, end), m')
    ensures m' == Machine(Begun(m.f).(verb := v, state := HeaderFieldStart, index := m'.f.index,
                                      httpMajor := DecValue(major), httpMinor := DecValue(minor),
                                      nread := m.f.nread + |AnyLine(w, more, url, further, major, minor, end)|),
                          Push(m.log, Data(OnUrl, url)))
  {
    hide Step, Reads, Run, Push, LegalTarget, MethodString, TakenFor, DecValue, IsNumber, Spaces, LineEnd;
    var m1 := TakenRead(resets, m, w, v);
    var m2 := SpacesRead(resets, m1, more);
    var m3 := UrlRead(resets, m2, url);
    var m4 := SpacesRead(resets, m3, further);
    var m5 := HttpWord(resets, m4);
    m' := RequestVersionRead(resets, m5, major, minor, end);
    var a, b, c := w + " ", url + " ", major + "." + minor + end;
    ReadsConcat(resets, m, a, m1, more, m2);
    ReadsConcat(resets, m, a + more, m2, b, m3);
    ReadsConcat(resets, m, a + more + b, m3, further, m4);
    ReadsConcat(resets, m, a + more + b + further, m4, "HTTP/", m5);
    ReadsConcat(resets, m, a + more + b + further + "HTTP/", m5, c, m');
  }

  lemma UrlLineEnd(resets: Policy, m: Machine, ch: char) returns (m': Machine)
    requires ReadsUrl(m.f.state) && !UrlOpen(m.f.state) && (ch == CR || ch == LF) && m.f.nread < HTTP_MAX_HEADER_SIZE
    ensures Reads(resets, m, [ch], m')
    ensures m' == m.(f := Counted(m.f).(httpMajor := 0, httpMinor := 9, state := if ch == CR then ReqLineAlmostDone else HeaderFieldStart))
  {
    hide Switch, Push, Reads;
    Opened(Counted(m.f), ch);
    StepBreak(resets, m, ch);
    m' := Step(resets, m, ch).0;
    ReadsOne(resets, m, ch);
  }

  /** A line that ends behind its target is one of version 0.9. */
  lemma OldLineRead(resets: Policy, m: Machine, w: string, v: Method, more: string, url: string, end: string) returns (m': Machine)
    requires m.f.state.StartReq? && TakenFor(w, v) && LegalTarget(v.CONNECT?, url) && Spaces(more) && LineEnd(end)
    requires m.f.nread + |w| + 1 + |more| + |url| + |end| <= HTTP_MAX_HEADER_SIZE
    ensures Reads(resets, m, w + " " + more + url + end, m')
    ensures m' == Machine(Begun(m.f).(verb := v, state := HeaderFieldStart, index := m'.f.index, httpMajor := 0, httpMinor := 9,
                                      nread := m.f.nread + |w| + 1 + |more| + |url| + |end|),
                          Push(m.log, Data(OnUrl, url)))
  {
    hide Step, Reads, Run, Push, LegalTarget, MethodString, TakenFor, Spaces, UrlOpen, ReadsUrl, UrlEnd;
    var m1 := TakenRead(resets, m, w, v);
    var m2 := SpacesRead(resets, m1, more);
    var m3 := UrlTextRead(resets, m2, url);
    var a := w + " ";
    ReadsConcat(resets, m, a, m1, more, m2);
    ReadsConcat(resets, m, a + more, m2, url, m3);
    if end == "\n" {
      m' := UrlLineEnd(resets, m3, LF);
      assert end == [LF];
      ReadsConcat(resets, m, a + more + url, m3, [LF], m');
    } else {
      var m4 := UrlLineEnd(resets, m3, CR);
      m' := MarkRead(resets, m4, LF, HeaderFieldStart);
      ReadsConcat(resets, m, a + more + url, m3, [CR], m4);
      ReadsConcat(resets, m, a + more + url + [CR], m4, [LF], m');
      assert a + more + url + [CR] + [LF] == a + more + url + end;
    }
  }

  function RequestLine(v: Method, url: string): string {
    WordLine(MethodString(v), url)
  }

  function WordLine(w: string, url: string): string {
    w + " " + url + " HTTP/1.1" + Crlf()
  }

  /** A whole request line of version 1.1, with any word that is taken for the method. */
  lemma WordLineRead(resets: Policy, m: Machine, w: string, v: Method, url: string) returns (m': Machine)
    requires m.f.state.StartReq? && TakenFor(w, v) && LegalTarget(v.CONNECT?, url)
    requires m.f.nread + |WordLine(w, url)| <= HTTP_MAX_HEADER_SIZE
    ensures Reads(resets, m, WordLine(w, url), m')
    ensures m' == Machine(Begun(m.f).(verb := v, state := HeaderFieldStart, index := m'.f.index,
                                      httpMajor := 1, httpMinor := 1, nread := m.f.nread + |WordLine(w, url)|),
                          Push(m.log, Data(OnUrl, url)))
  {
    hide Step, Reads, Run, Push, LegalTarget, MethodString, TakenFor, DecValue;
    OneIsNumber();
    WordLineIs(w, url);
    m' := AnyLineRead(resets, m, w, v, "", url, "", "1", "1", Crlf());
  }

  lemma OneIsNumber()
    ensures IsNumber(ReqMajor, "1") && IsNumber(ReqMinor, "1") && AllNum("1") && DecValue("1") == 1 && LineEnd(Crlf()) && Spaces("")
  {
    assert "1"[..0] == "";
    assert Crlf() == "\r\n";
  }

  lemma WordLineIs(w: string, url: string)
    ensures AnyLine(w, "", url, "", "1", "1", Crlf()) == WordLine(w, url)
  {
  }

  /** A whole request line with the name of its method. */
  lemma RequestLineRead(resets: Policy, m: Machine, v: Method, url: string) returns (m': Machine)
    requires m.f.state.StartReq? && LegalTarget(v.CONNECT?, url)
    requires m.f.nread + |RequestLine(v, url)| <= HTTP_MAX_HEADER_SIZE
    ensures Reads(resets, m, RequestLine(v, url), m')
    ensures m' == Machine(Begun(m.f).(verb := v, state := HeaderFieldStart, index := m'.f.index,
                                      httpMajor := 1, httpMinor := 1, nread := m.f.nread + |RequestLine(v, url)|),
                          Push(m.log, Data(OnUrl, url)))
  {
    hide Reads, Push, LegalTarget, WordLine, MethodString, TakenFor;
    NameIsTaken(v);
    m' := WordLineRead(resets, m, MethodString(v), v, url);
  }

  /** So a word that is no method starts a request, and a fresh parser reads on behind it. */
  lemma MisspeltLine(resets: Policy, m: Machine, url: string) returns (m': Machine)
    requires m.f.state.StartReq? && LegalUrl(url) && m.f.nread + |WordLine("GEX", url)| <= HTTP_MAX_HEADER_SIZE
    ensures Reads(resets, m, WordLine("GEX", url), m') && m'.f.verb.GET? && m'.f.state.HeaderFieldStart?
    ensures forall v :: MethodString(v) != "GEX"
  {
    hide Reads, Push, LegalTarget, WordLine;
    assert TakenFor("GEX", GET);
    m' := WordLineRead(resets, m, "GEX", GET, url);
  }

  lemma CrlfLength()
    ensures |Crlf()| == 2
  {
  }
}
