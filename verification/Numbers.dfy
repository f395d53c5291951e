/** The numbers of a first line: versions and status codes. */
module Numbers {
  import opened Bytes
  import opened HttpTypes
  import opened Dispatch
  import opened Machine
  import opened Recognisers
  import opened Accumulators

  /** The numbers of a status line, and those of a request line. */
  datatype Number = Major | Minor | Code | ReqMajor | ReqMinor

  function FirstState(n: Number): State {
    match n
    case Major => ResFirstHttpMajor
    case Minor => ResFirstHttpMinor
    case Code => ResFirstStatusCode
    case ReqMajor => ReqFirstHttpMajor
    case ReqMinor => ReqFirstHttpMinor
  }

  function DigitState(n: Number): State {
    match n
    case Major => ResHttpMajor
    case Minor => ResHttpMinor
    case Code => ResStatusCode
    case ReqMajor => ReqHttpMajor
    case ReqMinor => ReqHttpMinor
  }

  function NumberOf(f: Fields, n: Number): nat {
    if n.Code? then f.statusCode else if n.Major? || n.ReqMajor? then f.httpMajor else f.httpMinor
  }

  function WithNumber(f: Fields, n: Number, v: nat): Fields {
    if n.Code? then f.(statusCode := v) else if n.Major? || n.ReqMajor? then f.(httpMajor := v) else f.(httpMinor := v)
  }

  /** The major version of a request may not start with 0. */
  predicate MayStart(n: Number, ch: char) {
    IsNum(ch) && (n.ReqMajor? ==> ch != '0')
  }

  lemma FirstCase(f: Fields, n: Number, ch: char)
    requires f.state == FirstState(n) && MayStart(n, ch)
    ensures Switch(f, ch) == Go(To(WithNumber(f, n, Digit(ch)), DigitState(n)))
  {
    hide Switch;
    if n.Code? {
      Opened(f, ch);
    } else if n.Major? || n.Minor? {
      Opened(f, ch);
    } else {
      Opened(f, ch);
    }
  }

  lemma NumberFirst(resets: Policy, m: Machine, n: Number, ch: char)
    requires m.f.state == FirstState(n) && MayStart(n, ch) && m.f.nread < HTTP_MAX_HEADER_SIZE
    ensures Step(resets, m, ch) == (m.(f := To(WithNumber(Counted(m.f), n, Digit(ch)), DigitState(n))), Going)
  {
    hide Switch, Step;
    FirstCase(Counted(m.f), n, ch);
    StepGo(resets, m, ch, To(WithNumber(Counted(m.f), n, Digit(ch)), DigitState(n)));
  }

  /** No byte of the text ends a number. */
  predicate NumberOnly(s: string) {
    forall i | 0 <= i < |s| :: s[i] != '.' && s[i] != ' ' && s[i] != CR && s[i] != LF
  }

  lemma BadFirstCase(f: Fields, n: Number, ch: char)
    requires f.state == FirstState(n) && !MayStart(n, ch) && ch != ' '
    ensures Switch(f, ch).exit.Error?
  {
    hide Switch;
    if n.Code? {
      Opened(f, ch);
    } else if n.Major? || n.Minor? {
      Opened(f, ch);
    } else {
      Opened(f, ch);
    }
  }

  lemma ErrorStops(resets: Policy, m: Machine, ch: char)
    requires ParsingHeader(m.f.state) && m.f.nread < HTTP_MAX_HEADER_SIZE && Switch(Counted(m.f), ch).exit.Error?
    ensures Step(resets, m, ch).1.Failed?
  {
    hide Switch;
  }

  lemma BadFirst(resets: Policy, m: Machine, n: Number, ch: char)
    requires m.f.state == FirstState(n) && !MayStart(n, ch) && ch != ' ' && m.f.nread < HTTP_MAX_HEADER_SIZE
    ensures Step(resets, m, ch).1.Failed?
  {
    hide Switch, Step;
    BadFirstCase(Counted(m.f), n, ch);
    ErrorStops(resets, m, ch);
  }

  lemma NumberCase(f: Fields, n: Number, ch: char)
    requires f.state == DigitState(n) && IsNum(ch) && 10 * NumberOf(f, n) + Digit(ch) <= 999
    ensures Switch(f, ch) == Go(WithNumber(f, n, 10 * NumberOf(f, n) + Digit(ch)))
  {
    hide Switch;
    if n.Code? {
      Opened(f, ch);
    } else if n.Major? || n.Minor? {
      Opened(f, ch);
    } else {
      Opened(f, ch);
    }
  }

  lemma NumberByte(resets: Policy, m: Machine, n: Number, ch: char)
    requires m.f.state == DigitState(n) && IsNum(ch) && m.f.nread < HTTP_MAX_HEADER_SIZE
    requires 10 * NumberOf(m.f, n) + Digit(ch) <= 999
    ensures Step(resets, m, ch) == (m.(f := WithNumber(Counted(m.f), n, 10 * NumberOf(m.f, n) + Digit(ch))), Going)
  {
    hide Switch, Step;
    NumberCase(Counted(m.f), n, ch);
    StepGo(resets, m, ch, WithNumber(Counted(m.f), n, 10 * NumberOf(m.f, n) + Digit(ch)));
  }

  lemma BadCase(f: Fields, n: Number, ch: char)
    requires f.state == DigitState(n) && ch != '.' && ch != ' ' && ch != CR && ch != LF
    requires IsNum(ch) ==> 10 * NumberOf(f, n) + Digit(ch) > 999
    ensures Switch(f, ch).exit.Error?
  {
    hide Switch;
    if n.Code? {
      Opened(f, ch);
    } else if n.Major? || n.Minor? {
      Opened(f, ch);
    } else {
      Opened(f, ch);
    }
  }

  lemma BadByte(resets: Policy, m: Machine, n: Number, ch: char)
    requires m.f.state == DigitState(n) && ch != '.' && ch != ' ' && ch != CR && ch != LF && m.f.nread < HTTP_MAX_HEADER_SIZE
    requires IsNum(ch) ==> 10 * NumberOf(m.f, n) + Digit(ch) > 999
    ensures Step(resets, m, ch).1.Failed?
  {
    hide Switch, Step;
    BadCase(Counted(m.f), n, ch);
    ErrorStops(resets, m, ch);
  }

  lemma {:induction false} NumberTail(resets: Policy, m: Machine, n: Number, s: string, t: string) returns (m': Machine)
    requires m.f.state == DigitState(n) && AllNum(s) && AllNum(t) && NumberOf(m.f, n) == DecValue(s)
    requires AllNum(s + t) && DecValue(s + t) <= 999 && m.f.nread + |t| <= HTTP_MAX_HEADER_SIZE
    ensures Reads(resets, m, t, m')
    ensures m' == m.(f := WithNumber(m.f.(nread := m.f.nread + |t|), n, DecValue(s + t)))
    decreases |t|
  {
    hide Step, Reads, Run;
    if t == "" {
      m' := m;
      assert s + t == s;
      ReadsNothing(resets, m);
    } else {
      DecMore(s, t[0]);
      assert s + [t[0]] + t[1..] == s + t;
      DecGrows(s + [t[0]], t[1..]);
      NumberByte(resets, m, n, t[0]);
      var m1 := Step(resets, m, t[0]).0;
      m' := NumberTail(resets, m1, n, s + [t[0]], t[1..]);
      ReadsCons(resets, m, m1, t, m');
    }
  }

  /** A number of at most 999 in any spelling. */
  lemma NumberTextRead(resets: Policy, m: Machine, n: Number, s: string) returns (m': Machine)
    requires m.f.state == FirstState(n) && s != "" && AllNum(s) && MayStart(n, s[0]) && DecValue(s) <= 999
    requires m.f.nread + |s| <= HTTP_MAX_HEADER_SIZE
    ensures Reads(resets, m, s, m')
    ensures m' == m.(f := WithNumber(m.f.(nread := m.f.nread + |s|, state := DigitState(n)), n, DecValue(s)))
  {
    hide Step, Reads, Run;
    DecMore("", s[0]);
    assert "" + [s[0]] == [s[0]];
    assert [s[0]] + s[1..] == s;
    NumberFirst(resets, m, n, s[0]);
    var m1 := Step(resets, m, s[0]).0;
    m' := NumberTail(resets, m1, n, [s[0]], s[1..]);
    ReadsCons(resets, m, m1, s, m');
  }

  /** And as it is printed. */
  lemma NumberRead(resets: Policy, m: Machine, n: Number, v: nat) returns (m': Machine)
    requires m.f.state == FirstState(n) && !n.ReqMajor? && v <= 999 && m.f.nread + |Decimal(v)| <= HTTP_MAX_HEADER_SIZE
    ensures Reads(resets, m, Decimal(v), m')
    ensures m' == m.(f := WithNumber(m.f.(nread := m.f.nread + |Decimal(v)|, state := DigitState(n)), n, v))
  {
    hide Reads, Decimal;
    m' := NumberTextRead(resets, m, n, Decimal(v));
  }

  lemma {:induction false} NumberStops(resets: Policy, m: Machine, n: Number, s: string, t: string)
    requires m.f.state == DigitState(n) && AllNum(s) && NumberOnly(t) && NumberOf(m.f, n) == DecValue(s) <= 999
    requires AllNum(s + t) ==> DecValue(s + t) > 999
    requires m.f.nread + |t| <= HTTP_MAX_HEADER_SIZE
    ensures Run(resets, m, t).verdict.Failed?
    decreases |t|
  {
    hide Step;
    assert s + "" == s;
    if IsNum(t[0]) {
      DecMore(s, t[0]);
      assert s + [t[0]] + t[1..] == s + t;
      if 10 * DecValue(s) + Digit(t[0]) > 999 {
        BadByte(resets, m, n, t[0]);
      } else {
        NumberByte(resets, m, n, t[0]);
        NumberStops(resets, Step(resets, m, t[0]).0, n, s + [t[0]], t[1..]);
      }
    } else {
      BadByte(resets, m, n, t[0]);
    }
  }

  lemma RunFirst(resets: Policy, m: Machine, s: string)
    requires s != ""
    ensures Step(resets, m, s[0]).1.Going? ==> Run(resets, m, s) == After(1, Run(resets, Step(resets, m, s[0]).0, s[1..]))
    ensures Step(resets, m, s[0]).1.Failed? ==> Run(resets, m, s).verdict.Failed?
  {
    hide Step;
  }

  lemma FirstDigit(resets: Policy, m: Machine, n: Number, ch: char)
    requires m.f.state == FirstState(n) && MayStart(n, ch) && m.f.nread < HTTP_MAX_HEADER_SIZE
    ensures var (m1, v) := Step(resets, m, ch);
      && v.Going? && m1.f.state == DigitState(n) && m1.f.nread == m.f.nread + 1
      && AllNum([ch]) && NumberOf(m1.f, n) == DecValue([ch]) <= 9
  {
    hide Step, DecValue;
    NumberFirst(resets, m, n, ch);
    NothingIsZero();
    DecMore("", ch);
    assert "" + [ch] == [ch];
  }

  lemma NothingIsZero()
    ensures DecValue("") == 0
  {
  }

  lemma NumberKept(f: Fields, n: Number, v: nat)
    ensures NumberOf(WithNumber(f, n, v), n) == v
  {
  }

  /** The texts that are accepted as a version number or a status code: digits of at most 999, and for the
      major version of a request without a leading 0. */
  predicate IsNumber(n: Number, s: string) {
    s != "" && AllNum(s) && MayStart(n, s[0]) && DecValue(s) <= 999
  }

  /** Of texts in which no byte ends a number exactly these are accepted, and stored. */
  lemma NumberIff(resets: Policy, m: Machine, n: Number, s: string)
    requires m.f.state == FirstState(n) && s != "" && NumberOnly(s) && m.f.nread + |s| <= HTTP_MAX_HEADER_SIZE
    ensures Run(resets, m, s).verdict.Going? <==> IsNumber(n, s)
    ensures IsNumber(n, s) ==> NumberOf(Run(resets, m, s).m.f, n) == DecValue(s)
  {
    hide Step, Run, DecValue, WithNumber, NumberOf, DigitState, FirstState;
    RunFirst(resets, m, s);
    if !MayStart(n, s[0]) {
      BadFirst(resets, m, n, s[0]);
    } else if IsNumber(n, s) {
      var m' := NumberTextRead(resets, m, n, s);
      ReadsGoes(resets, m, s, m');
      NumberKept(m.f.(nread := m.f.nread + |s|, state := DigitState(n)), n, DecValue(s));
    } else {
      FirstDigit(resets, m, n, s[0]);
      assert [s[0]] + s[1..] == s;
      NumberStops(resets, Step(resets, m, s[0]).0, n, [s[0]], s[1..]);
    }
  }

  lemma ReadsGoes(resets: Policy, m: Machine, s: string, m': Machine)
    requires Reads(resets, m, s, m')
    ensures Run(resets, m, s) == Ran(m', |s|, Going)
  {
  }
}
