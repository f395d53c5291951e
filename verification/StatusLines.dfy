/** What the reference parser makes of a status line. */
module StatusLines {
  import opened Bytes
  import opened HttpTypes
  import opened Dispatch
  import opened Machine
  import opened Recognisers
  import opened HeaderLines
  import opened Numbers

  lemma StartByte(resets: Policy, m: Machine, ch: char, s: State)
    requires m.f.nread < HTTP_MAX_HEADER_SIZE
    requires || (m.f.state.ResH? && ch == 'T' && s.ResHT?)
             || (m.f.state.ResHT? && ch == 'T' && s.ResHTT?)
             || (m.f.state.ResHTT? && ch == 'P' && s.ResHTTP?)
             || (m.f.state.ResHTTP? && ch == '/' && s.ResFirstHttpMajor?)
    ensures Step(resets, m, ch) == (m.(f := To(Counted(m.f), s)), Going)
  {
    hide Switch, Emit;
    Opened(Counted(m.f), ch);
    StepGo(resets, m, ch, To(Counted(m.f), s));
  }

  lemma StartFirst(resets: Policy, m: Machine)
    requires m.f.state.StartRes? && m.f.nread < HTTP_MAX_HEADER_SIZE
    ensures Step(resets, m, 'H') == (m.(f := Counted(m.f).(flags := NO_FLAGS, contentLength := ULLONG_MAX, state := ResH)), Going)
  {
    hide Switch;
    Opened(Counted(m.f), 'H');
    StepBreak(resets, m, 'H');
  }

  lemma HttpRead(resets: Policy, m: Machine) returns (m': Machine)
    requires m.f.state.StartRes? && m.f.nread + 5 <= HTTP_MAX_HEADER_SIZE
    ensures Reads(resets, m, "HTTP/", m')
    ensures m' == m.(f := m.f.(flags := NO_FLAGS, contentLength := ULLONG_MAX, state := ResFirstHttpMajor, nread := m.f.nread + 5))
  {
    hide Step, Reads, Run;
    var f := m.f.(flags := NO_FLAGS, contentLength := ULLONG_MAX);
    var m1 := m.(f := f.(state := ResH, nread := f.nread + 1));
    var m2 := m.(f := f.(state := ResHT, nread := f.nread + 2));
    var m3 := m.(f := f.(state := ResHTT, nread := f.nread + 3));
    var m4 := m.(f := f.(state := ResHTTP, nread := f.nread + 4));
    m' := m.(f := f.(state := ResFirstHttpMajor, nread := f.nread + 5));
    StartFirst(resets, m);
    StartByte(resets, m1, 'T', ResHT);
    StartByte(resets, m2, 'T', ResHTT);
    StartByte(resets, m3, 'P', ResHTTP);
    StartByte(resets, m4, '/', ResFirstHttpMajor);
    ReadsOne(resets, m4, '/');
    ReadsCons(resets, m3, m4, "P/", m');
    ReadsCons(resets, m2, m3, "TP/", m');
    ReadsCons(resets, m1, m2, "TTP/", m');
    ReadsCons(resets, m, m1, "HTTP/", m');
  }

  /** A byte between the parts of a status line, or of its phrase, leads from `s` to `t`. */
  predicate Separates(s: State, ch: char, t: State) {
    || (s.ResHttpMajor? && ch == '.' && t.ResFirstHttpMinor?)
    || (s.ResHttpMinor? && ch == ' ' && t.ResFirstStatusCode?)
    || (s.ResStatusCode? && ch == ' ' && t.ResStatus?)
    || (s.ResFirstStatusCode? && ch == ' ' && t.ResFirstStatusCode?)
    || ((s.ResStatusCode? || s.ResStatus?) && ch == CR && t.ResLineAlmostDone?)
    || ((s.ResStatusCode? || s.ResStatus?) && ch == LF && t.HeaderFieldStart?)
    || (s.ResStatus? && ch != CR && ch != LF && t.ResStatus?)
    || (s.ResLineAlmostDone? && ch == LF && t.HeaderFieldStart?)
  }

  lemma SeparatorCase(f: Fields, ch: char, t: State)
    requires Separates(f.state, ch, t)
    ensures Switch(f, ch) == Go(To(f, t))
  {
    hide Switch;
    if f.state.ResHttpMajor? || f.state.ResHttpMinor? {
      Opened(f, ch);
    } else {
      Opened(f, ch);
    }
  }

  lemma Separator(resets: Policy, m: Machine, ch: char, s: State)
    requires m.f.nread < HTTP_MAX_HEADER_SIZE && Separates(m.f.state, ch, s)
    ensures Step(resets, m, ch) == (m.(f := To(Counted(m.f), s)), Going)
    ensures Reads(resets, m, [ch], m.(f := To(Counted(m.f), s)))
  {
    hide Switch, Reads, Step;
    SeparatorCase(Counted(m.f), ch, s);
    StepGo(resets, m, ch, To(Counted(m.f), s));
    ReadsOne(resets, m, ch);
  }

  lemma {:induction false} PhraseRead(resets: Policy, m: Machine, s: string) returns (m': Machine)
    requires m.f.state.ResStatus? && m.f.nread + |s| <= HTTP_MAX_HEADER_SIZE
    requires forall i | 0 <= i < |s| :: s[i] != CR && s[i] != LF
    ensures Reads(resets, m, s, m')
    ensures m' == m.(f := m.f.(nread := m.f.nread + |s|))
    decreases |s|
  {
    hide Step, Reads, Run;
    if s == "" {
      m' := m;
      ReadsNothing(resets, m);
    } else {
      Separator(resets, m, s[0], ResStatus);
      var m1 := m.(f := Counted(m.f));
      m' := PhraseRead(resets, m1, s[1..]);
      ReadsCons(resets, m, m1, s, m');
    }
  }

  function StatusLine(major: nat, minor: nat, code: nat, phrase: string): string {
    "HTTP/" + Decimal(major) + "." + Decimal(minor) + " " + Decimal(code) + " " + phrase + Crlf()
  }

  predicate LegalPhrase(s: string) {
    forall i | 0 <= i < |s| :: s[i] != CR && s[i] != LF
  }

  lemma VersionRead(resets: Policy, m: Machine, major: nat, minor: nat) returns (m': Machine)
    requires m.f.state.ResFirstHttpMajor? && major <= 999 && minor <= 999
    requires m.f.nread + |Decimal(major)| + |Decimal(minor)| + 2 <= HTTP_MAX_HEADER_SIZE
    ensures Reads(resets, m, Decimal(major) + "." + Decimal(minor) + " ", m')
    ensures m' == m.(f := m.f.(httpMajor := major, httpMinor := minor, state := ResFirstStatusCode,
                               nread := m.f.nread + |Decimal(major)| + |Decimal(minor)| + 2))
  {
    hide Step, Reads, Run, Decimal;
    var m1 := NumberRead(resets, m, Major, major);
    Separator(resets, m1, '.', ResFirstHttpMinor);
    var m2 := m1.(f := To(Counted(m1.f), ResFirstHttpMinor));
    var m3 := NumberRead(resets, m2, Minor, minor);
    Separator(resets, m3, ' ', ResFirstStatusCode);
    m' := m3.(f := To(Counted(m3.f), ResFirstStatusCode));
    ReadsConcat(resets, m, Decimal(major), m1, ".", m2);
    ReadsConcat(resets, m, Decimal(major) + ".", m2, Decimal(minor), m3);
    ReadsConcat(resets, m, Decimal(major) + "." + Decimal(minor), m3, " ", m');
  }

  lemma CodeRead(resets: Policy, m: Machine, code: nat, phrase: string) returns (m': Machine)
    requires m.f.state.ResFirstStatusCode? && code <= 999 && LegalPhrase(phrase)
    requires m.f.nread + |Decimal(code)| + 1 + |phrase| + 2 <= HTTP_MAX_HEADER_SIZE
    ensures Reads(resets, m, Decimal(code) + " " + phrase + Crlf(), m')
    ensures m' == m.(f := m.f.(statusCode := code, state := HeaderFieldStart,
                               nread := m.f.nread + |Decimal(code)| + 1 + |phrase| + 2))
  {
    hide Step, Reads, Run, Decimal;
    var m1 := NumberRead(resets, m, Code, code);
    Separator(resets, m1, ' ', ResStatus);
    var m2 := m1.(f := To(Counted(m1.f), ResStatus));
    var m3 := PhraseRead(resets, m2, phrase);
    Separator(resets, m3, CR, ResLineAlmostDone);
    var m4 := m3.(f := To(Counted(m3.f), ResLineAlmostDone));
    Separator(resets, m4, LF, HeaderFieldStart);
    m' := m4.(f := To(Counted(m4.f), HeaderFieldStart));
    var d := Decimal(code);
    ReadsConcat(resets, m, d, m1, " ", m2);
    ReadsConcat(resets, m, d + " ", m2, phrase, m3);
    ReadsConcat(resets, m, d + " " + phrase, m3, [CR], m4);
    ReadsConcat(resets, m, d + " " + phrase + [CR], m4, [LF], m');
    assert d + " " + phrase + [CR] + [LF] == d + " " + phrase + Crlf();
  }

  /** A whole status line. */
  lemma StatusLineRead(resets: Policy, m: Machine, major: nat, minor: nat, code: nat, phrase: string) returns (m': Machine)
    requires m.f.state.StartRes? && major <= 999 && minor <= 999 && code <= 999 && LegalPhrase(phrase)
    requires m.f.nread + |StatusLine(major, minor, code, phrase)| <= HTTP_MAX_HEADER_SIZE
    ensures Reads(resets, m, StatusLine(major, minor, code, phrase), m')
    ensures m' == m.(f := m.f.(flags := NO_FLAGS, contentLength := ULLONG_MAX, httpMajor := major, httpMinor := minor,
                               statusCode := code, state := HeaderFieldStart,
                               nread := m.f.nread + |StatusLine(major, minor, code, phrase)|))
  {
    hide Step, Reads, Run, Decimal, LegalPhrase;
    assert |Crlf()| == 2;
    hide Crlf;
    var m1 := HttpRead(resets, m);
    var m2 := VersionRead(resets, m1, major, minor);
    m' := CodeRead(resets, m2, code, phrase);
    var v := Decimal(major) + "." + Decimal(minor) + " ";
    var c := Decimal(code) + " " + phrase + Crlf();
    ReadsConcat(resets, m, "HTTP/", m1, v, m2);
    ReadsConcat(resets, m, "HTTP/" + v, m2, c, m');
    assert "HTTP/" + v + c == StatusLine(major, minor, code, phrase);
  }

  // ---------- Status lines in any spelling ----------

  lemma {:induction false} CodeSpaces(resets: Policy, m: Machine, gap: string) returns (m': Machine)
    requires m.f.state.ResFirstStatusCode? && m.f.nread + |gap| <= HTTP_MAX_HEADER_SIZE && forall i | 0 <= i < |gap| :: gap[i] == ' '
    ensures Reads(resets, m, gap, m') && m' == m.(f := m.f.(nread := m.f.nread + |gap|))
    decreases |gap|
  {
    hide Step, Reads, Run;
    if gap == "" {
      m' := m;
      ReadsNothing(resets, m);
    } else {
      Separator(resets, m, ' ', ResFirstStatusCode);
      m' := CodeSpaces(resets, m.(f := Counted(m.f)), gap[1..]);
      ReadsCons(resets, m, m.(f := Counted(m.f)), gap, m');
    }
  }

  lemma StatusEnd(resets: Policy, m: Machine, end: string) returns (m': Machine)
    requires (m.f.state.ResStatusCode? || m.f.state.ResStatus?) && LineEnd(end) && m.f.nread + |end| <= HTTP_MAX_HEADER_SIZE
    ensures Reads(resets, m, end, m') && m' == m.(f := m.f.(state := HeaderFieldStart, nread := m.f.nread + |end|))
  {
    hide Step, Reads, Run;
    if end == "\n" {
      Separator(resets, m, LF, HeaderFieldStart);
      m' := m.(f := To(Counted(m.f), HeaderFieldStart));
      assert end == [LF];
    } else {
      Separator(resets, m, CR, ResLineAlmostDone);
      var m1 := m.(f := To(Counted(m.f), ResLineAlmostDone));
      Separator(resets, m1, LF, HeaderFieldStart);
      m' := m1.(f := To(Counted(m1.f), HeaderFieldStart));
      ReadsConcat(resets, m, [CR], m1, [LF], m');
      assert end == [CR] + [LF];
    }
  }

  /** A code, perhaps with a phrase behind a space, and the line end. */
  function Rest(phrase: Option<string>): string {
    if phrase.None? then "" else " " + phrase.value
  }

  lemma RestRead(resets: Policy, m: Machine, phrase: Option<string>, end: string) returns (m': Machine)
    requires m.f.state.ResStatusCode? && (phrase.Some? ==> LegalPhrase(phrase.value)) && LineEnd(end)
    requires m.f.nread + |Rest(phrase)| + |end| <= HTTP_MAX_HEADER_SIZE
    ensures Reads(resets, m, Rest(phrase) + end, m')
    ensures m' == m.(f := m.f.(state := HeaderFieldStart, nread := m.f.nread + |Rest(phrase)| + |end|))
  {
    hide Step, Reads, Run, LineEnd;
    if phrase.None? {
      m' := StatusEnd(resets, m, end);
      assert Rest(phrase) + end == end;
    } else {
      Separator(resets, m, ' ', ResStatus);
      var m1 := m.(f := To(Counted(m.f), ResStatus));
      var m2 := PhraseRead(resets, m1, phrase.value);
      m' := StatusEnd(resets, m2, end);
      ReadsConcat(resets, m, " ", m1, phrase.value, m2);
      ReadsConcat(resets, m, " " + phrase.value, m2, end, m');
    }
  }

  /** A status line in any spelling: numbers with leading zeros, more spaces before the code, no phrase, and
      either line end. */
  function AnyStatusLine(major: string, minor: string, more: string, code: string, phrase: Option<string>, end: string): string {
    "HTTP/" + major + "." + minor + " " + more + code + (Rest(phrase) + end)
  }

  lemma AnyStatusLineRead(resets: Policy, m: Machine, major: string, minor: string, more: string, code: string,
                          phrase: Option<string>, end: string) returns (m': Machine)
    requires m.f.state.StartRes? && IsNumber(Major, major) && IsNumber(Minor, minor) && IsNumber(Code, code) && LineEnd(end)
    requires (forall i | 0 <= i < |more| :: more[i] == ' ') && (phrase.Some? ==> LegalPhrase(phrase.value))
    requires m.f.nread + |AnyStatusLine(major, minor, more, code, phrase, end)| <= HTTP_MAX_HEADER_SIZE
    ensures Reads(resets, m, AnyStatusLine(major, minor, more, code, phrase, end), m')
    ensures m' == m.(f := m.f.(flags := NO_FLAGS, contentLength := ULLONG_MAX, httpMajor := DecValue(major),
                               httpMinor := DecValue(minor), statusCode := DecValue(code), state := HeaderFieldStart,
                               nread := m.f.nread + |AnyStatusLine(major, minor, more, code, phrase, end)|))
  {
    hide Step, Reads, Run, DecValue, LineEnd, LegalPhrase, Rest;
    var m1 := HttpRead(resets, m);
    var m2 := NumberTextRead(resets, m1, Major, major);
    Separator(resets, m2, '.', ResFirstHttpMinor);
    var m3 := m2.(f := To(Counted(m2.f), ResFirstHttpMinor));
    var m4 := NumberTextRead(resets, m3, Minor, minor);
    Separator(resets, m4, ' ', ResFirstStatusCode);
    var m5 := m4.(f := To(Counted(m4.f), ResFirstStatusCode));
    var m6 := CodeSpaces(resets, m5, more);
    var m7 := NumberTextRead(resets, m6, Code, code);
    m' := RestRead(resets, m7, phrase, end);
    ReadsConcat(resets, m, "HTTP/", m1, major, m2);
    ReadsConcat(resets, m, "HTTP/" + major, m2, ".", m3);
    ReadsConcat(resets, m, "HTTP/" + major + ".", m3, minor, m4);
    ReadsConcat(resets, m, "HTTP/" + major + "." + minor, m4, " ", m5);
    ReadsConcat(resets, m, "HTTP/" + major + "." + minor + " ", m5, more, m6);
    ReadsConcat(resets, m, "HTTP/" + major + "." + minor + " " + more, m6, code, m7);
    ReadsConcat(resets, m, "HTTP/" + major + "." + minor + " " + more + code, m7, Rest(phrase) + end, m');
  }
}
