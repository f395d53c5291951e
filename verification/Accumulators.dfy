/** The 64-bit accumulators of Content-Length and of chunk sizes hold exactly the numbers below
    2^64 - 1. */
module Accumulators {
  import opened Bytes
  import opened HttpTypes
  import opened Dispatch
  import opened EventLog
  import opened Machine
  import opened Recognisers

  lemma DecMore(s: string, c: char)
    requires AllNum(s) && IsNum(c)
    ensures AllNum(s + [c]) && DecValue(s + [c]) == 10 * DecValue(s) + Digit(c)
  {
    assert (s + [c])[..|s|] == s;
  }

  lemma HexMore(s: string, c: char)
    requires AllHex(s) && Unhex(c) != -1
    ensures AllHex(s + [c]) && HexValue(s + [c]) == 16 * HexValue(s) + Unhex(c)
  {
    assert (s + [c])[..|s|] == s;
  }

  lemma {:induction false} DecGrows(s: string, t: string)
    requires AllNum(s) && AllNum(t)
    ensures AllNum(s + t) && DecValue(s) <= DecValue(s + t)
    decreases |t|
  {
    if t == "" {
      assert s + t == s;
    } else {
      DecMore(s, t[0]);
      DecGrows(s + [t[0]], t[1..]);
      assert s + [t[0]] + t[1..] == s + t;
    }
  }

  lemma {:induction false} HexGrows(s: string, t: string)
    requires AllHex(s) && AllHex(t)
    ensures AllHex(s + t) && HexValue(s) <= HexValue(s + t)
    decreases |t|
  {
    hide Unhex;
    if t == "" {
      assert s + t == s;
    } else {
      UnhexRange(t[0]);
      HexMore(s, t[0]);
      HexGrows(s + [t[0]], t[1..]);
      assert s + [t[0]] + t[1..] == s + t;
    }
  }

  lemma UnhexRange(c: char)
    ensures -1 <= Unhex(c) <= 15
  {
  }

  /** Below 2^64 - 1 nothing wraps and the guard lets the digit pass. */
  lemma ShiftExact(n: nat, base: nat, d: nat)
    requires 0 < base && n * base + d < ULLONG_MAX
    ensures Shift64(n, base, d) == Some(n * base + d)
  {
    TimesGrows(n, base);
    Fits64(n * base + d);
  }

  lemma {:induction false} TimesGrows(n: nat, k: nat)
    requires k > 0
    ensures n <= n * k
  {
    if k > 1 {
      TimesGrows(n, k - 1);
      assert n * k == n * (k - 1) + n;
    }
  }

  lemma Fits64(t: nat)
    requires t < ULLONG_MAX
    ensures t % 0x1_0000_0000_0000_0000 == t
  {
  }

  /** The guard, digit by digit: the result is exact if and only if the true value is below 2^64 - 1, and
      otherwise the digit passes all the same if and only if the wrapped value has grown. */
  lemma ShiftIff(n: nat, base: nat, d: nat)
    requires 0 < base && n < ULLONG_MAX
    ensures Shift64(n, base, d) == Some(n * base + d) <==> n * base + d < ULLONG_MAX
    ensures n * base + d >= ULLONG_MAX ==>
              (Shift64(n, base, d).Some? <==> n <= (n * base + d) % 0x1_0000_0000_0000_0000 < ULLONG_MAX)
  {
    if n * base + d < ULLONG_MAX {
      ShiftExact(n, base, d);
    }
  }

  // ---------- Content-Length ----------

  /** One more byte of a length: blanks are skipped, digits are shifted in. */
  function LengthNext(n: nat, ch: char): Option<nat> {
    if ch == ' ' then Some(n) else if IsNum(ch) then Shift64(n, 10, Digit(ch)) else None
  }

  /** What the bytes of a length make of the number so far. */
  function LengthFrom(n: nat, t: string): Option<nat>
    decreases |t|
  {
    if t == "" then Some(n)
    else if LengthNext(n, t[0]).None? then None
    else LengthFrom(LengthNext(n, t[0]).value, t[1..])
  }

  predicate DigitsAndBlanks(s: string) {
    forall i | 0 <= i < |s| :: IsNum(s[i]) || s[i] == ' '
  }

  function NoBlanks(s: string): (d: string)
    ensures DigitsAndBlanks(s) ==> AllNum(d)
  {
    if s == "" then ""
    else
      var d := NoBlanks(s[..|s| - 1]);
      if s[|s| - 1] == ' ' then d else d + [s[|s| - 1]]
  }

  lemma NoBlanksMore(s: string, c: char)
    ensures NoBlanks(s + [c]) == if c == ' ' then NoBlanks(s) else NoBlanks(s) + [c]
  {
    assert (s + [c])[..|s|] == s;
  }

  lemma {:induction false} NoBlanksSame(s: string)
    requires AllNum(s)
    ensures NoBlanks(s) == s
  {
    if s != "" {
      NoBlanksSame(s[..|s| - 1]);
      assert s == s[..|s| - 1] + [s[|s| - 1]];
    }
  }

  lemma NoBlanksOfNone()
    ensures NoBlanks("") == ""
  {
  }

  lemma {:induction false} NoBlanksConcat(s: string, t: string)
    ensures NoBlanks(s + t) == NoBlanks(s) + NoBlanks(t)
    decreases |t|
  {
    hide NoBlanks;
    if t == "" {
      NoBlanksOfNone();
      assert s + t == s;
    } else {
      var u, c := t[..|t| - 1], t[|t| - 1];
      NoBlanksConcat(s, u);
      NoBlanksMore(s + u, c);
      NoBlanksMore(u, c);
      assert s + t == s + u + [c] && t == u + [c];
    }
  }

  lemma {:induction false} NoBlanksGrows(s: string, t: string)
    requires DigitsAndBlanks(s) && DigitsAndBlanks(t)
    ensures DigitsAndBlanks(s + t) && DecValue(NoBlanks(s)) <= DecValue(NoBlanks(s + t))
    decreases |t|
  {
    hide DecValue, NoBlanks;
    if t == "" {
      assert s + t == s;
    } else {
      NoBlanksMore(s, t[0]);
      if t[0] != ' ' {
        DecGrows(NoBlanks(s), [t[0]]);
      }
      NoBlanksGrows(s + [t[0]], t[1..]);
      assert s + [t[0]] + t[1..] == s + t;
    }
  }

  /** Below 2^64 - 1 the number is that of the digits. */
  lemma {:induction false} LengthFromExact(s: string, t: string)
    requires DigitsAndBlanks(s) && DigitsAndBlanks(t) && DigitsAndBlanks(s + t) && DecValue(NoBlanks(s + t)) < ULLONG_MAX
    ensures LengthFrom(DecValue(NoBlanks(s)), t) == Some(DecValue(NoBlanks(s + t)))
    decreases |t|
  {
    hide DecValue, NoBlanks, Shift64;
    if t == "" {
      assert s + t == s;
    } else {
      var s1 := s + [t[0]];
      assert s1 + t[1..] == s + t;
      NoBlanksMore(s, t[0]);
      NoBlanksGrows(s1, t[1..]);
      if t[0] != ' ' {
        DecMore(NoBlanks(s), t[0]);
        ShiftExact(DecValue(NoBlanks(s)), 10, Digit(t[0]));
      }
      LengthFromExact(s1, t[1..]);
    }
  }

  lemma LengthIsDecimal(v: string)
    requires DigitsAndBlanks(v) && DecValue(NoBlanks(v)) < 18446744073709551615
    ensures LengthFrom(0, v) == Some(DecValue(NoBlanks(v)))
  {
    assert "" + v == v;
    LengthFromExact("", v);
  }

  lemma {:induction false} LengthIsSmall(n: nat, t: string)
    requires n < ULLONG_MAX && LengthFrom(n, t).Some?
    ensures LengthFrom(n, t).value < ULLONG_MAX && DigitsAndBlanks(t)
    decreases |t|
  {
    if t != "" {
      LengthIsSmall(LengthNext(n, t[0]).value, t[1..]);
      assert forall i | 1 <= i < |t| :: t[i] == t[1..][i - 1];
    }
  }

  lemma LengthByte(resets: Policy, m: Machine, ch: char)
    requires m.f.state.HeaderValue? && m.f.headerState.HContentLength? && ch != CR && ch != LF
    requires m.f.nread < HTTP_MAX_HEADER_SIZE
    ensures var (m', v) := Step(resets, m, ch);
      match LengthNext(m.f.contentLength, ch)
      case None => v.Failed?
      case Some(t) => v.Going? && m' == Machine(Counted(m.f).(contentLength := t), Push(m.log, Data(OnHeaderValue, [ch])))
  {
    hide Switch, Push, Shift64;
    Opened(Counted(m.f), ch);
    if LengthNext(m.f.contentLength, ch).Some? {
      StepBreak(resets, m, ch);
    }
  }

  predicate OneLine(t: string) {
    forall i | 0 <= i < |t| :: t[i] != CR && t[i] != LF
  }

  lemma {:induction false} LengthTail(resets: Policy, m: Machine, t: string) returns (m': Machine)
    requires m.f.state.HeaderValue? && m.f.headerState.HContentLength? && EndsWith(m.log, OnHeaderValue)
    requires OneLine(t) && LengthFrom(m.f.contentLength, t).Some? && m.f.nread + |t| <= HTTP_MAX_HEADER_SIZE
    ensures Reads(resets, m, t, m')
    ensures m' == Machine(m.f.(contentLength := LengthFrom(m.f.contentLength, t).value, nread := m.f.nread + |t|),
                          Push(m.log, Data(OnHeaderValue, t)))
    decreases |t|
  {
    hide Step, Push, Reads, Run, LengthNext;
    if t == "" {
      m' := m;
      ReadsNothing(resets, m);
      PushNothing(m.log, OnHeaderValue);
    } else {
      LengthByte(resets, m, t[0]);
      PushCons(m.log, OnHeaderValue, t);
      var m1 := Step(resets, m, t[0]).0;
      m' := LengthTail(resets, m1, t[1..]);
      ReadsCons(resets, m, m1, t, m');
    }
  }

  lemma {:induction false} LengthStops(resets: Policy, m: Machine, t: string)
    requires m.f.state.HeaderValue? && m.f.headerState.HContentLength?
    requires OneLine(t) && LengthFrom(m.f.contentLength, t).None? && m.f.nread + |t| <= HTTP_MAX_HEADER_SIZE
    ensures Run(resets, m, t).verdict.Failed?
    decreases |t|
  {
    hide Step, Push, LengthNext;
    LengthByte(resets, m, t[0]);
    if LengthNext(m.f.contentLength, t[0]).Some? {
      LengthStops(resets, Step(resets, m, t[0]).0, t[1..]);
    }
  }

  lemma LengthFirst(resets: Policy, m: Machine, ch: char)
    requires m.f.state.HeaderValueStart? && m.f.headerState.HContentLength? && ch != CR && ch != LF && ch != ' ' && ch != '\t'
    requires m.f.nread < HTTP_MAX_HEADER_SIZE
    ensures IsNum(ch) ==>
              (var f := Counted(m.f).(state := HeaderValue, index := 0, contentLength := Digit(ch));
               Step(resets, m, ch) == (Machine(f, Push(m.log, Data(OnHeaderValue, [ch]))), Going))
    ensures !IsNum(ch) ==> Step(resets, m, ch).1.Failed?
  {
    hide Switch, Push;
    Opened(Counted(m.f), ch);
    if IsNum(ch) {
      StepBreak(resets, m, ch);
    }
  }

  /** The texts that are accepted as lengths: a digit first, and then digits and blanks with no digit
      that the guard refuses. */
  predicate IsLength(v: string) {
    v != "" && IsNum(v[0]) && LengthFrom(0, v).Some?
  }

  lemma FromFirst(v: string)
    requires v != "" && IsNum(v[0])
    ensures LengthFrom(0, v) == LengthFrom(Digit(v[0]), v[1..])
  {
    ShiftExact(0, 10, Digit(v[0]));
  }

  lemma LengthRead(resets: Policy, m: Machine, v: string) returns (m': Machine)
    requires m.f.state.HeaderValueStart? && m.f.headerState.HContentLength?
    requires OneLine(v) && IsLength(v) && m.f.nread + |v| <= HTTP_MAX_HEADER_SIZE
    ensures Reads(resets, m, v, m')
    ensures m' == Machine(m.f.(state := HeaderValue, index := 0, contentLength := LengthFrom(0, v).value, nread := m.f.nread + |v|),
                          Push(m.log, Data(OnHeaderValue, v)))
  {
    hide Step, Push, Reads, Run, LengthFrom;
    LengthFirst(resets, m, v[0]);
    FromFirst(v);
    var m1 := Step(resets, m, v[0]).0;
    PushCons(m.log, OnHeaderValue, v);
    m' := LengthTail(resets, m1, v[1..]);
    ReadsCons(resets, m, m1, v, m');
  }

  /** Exactly these texts are accepted. */
  lemma LengthTextIff(resets: Policy, m: Machine, v: string)
    requires m.f.state.HeaderValueStart? && m.f.headerState.HContentLength?
    requires v != "" && OneLine(v) && v[0] != ' ' && v[0] != '\t' && m.f.nread + |v| <= HTTP_MAX_HEADER_SIZE
    ensures var r := Run(resets, m, v);
      && (r.verdict.Going? <==> IsLength(v))
      && (r.verdict.Going? ==> r.m.f.contentLength == LengthFrom(0, v).value)
  {
    hide Step, Push, LengthFrom;
    LengthFirst(resets, m, v[0]);
    if IsLength(v) {
      var m' := LengthRead(resets, m, v);
    } else if IsNum(v[0]) {
      FromFirst(v);
      LengthStops(resets, Step(resets, m, v[0]).0, v[1..]);
    }
  }

  lemma DigitsAreLine(s: string)
    requires AllNum(s)
    ensures OneLine(s) && DigitsAndBlanks(s) && NoBlanks(s) == s
  {
    NoBlanksSame(s);
  }

  /** A Content-Length below 2^64 - 1 is read and stored exactly. */
  lemma LengthExact(resets: Policy, m: Machine, s: string) returns (m': Machine)
    requires m.f.state.HeaderValueStart? && m.f.headerState.HContentLength?
    requires s != "" && AllNum(s) && DecValue(s) < ULLONG_MAX && m.f.nread + |s| <= HTTP_MAX_HEADER_SIZE
    ensures Reads(resets, m, s, m')
    ensures m' == Machine(m.f.(state := HeaderValue, index := 0, contentLength := DecValue(s), nread := m.f.nread + |s|),
                          Push(m.log, Data(OnHeaderValue, s)))
  {
    hide Push, Reads, Run, LengthFrom, DecValue, NoBlanks;
    DigitsAreLine(s);
    LengthIsDecimal(s);
    m' := LengthRead(resets, m, s);
  }

  /** Exactly the lengths below 2^64 - 1 are read and stored as the number they denote. */
  lemma LengthIff(resets: Policy, m: Machine, s: string)
    requires m.f.state.HeaderValueStart? && m.f.headerState.HContentLength?
    requires s != "" && AllNum(s) && m.f.nread + |s| <= HTTP_MAX_HEADER_SIZE
    ensures var r := Run(resets, m, s);
      r.verdict.Going? && r.m.f.contentLength == DecValue(s) <==> DecValue(s) < 18446744073709551615
  {
    hide Run, DecValue, NoBlanks, LengthFrom;
    DigitsAreLine(s);
    LengthTextIff(resets, m, s);
    if DecValue(s) < ULLONG_MAX {
      LengthIsDecimal(s);
    }
    if LengthFrom(0, s).Some? {
      LengthIsSmall(0, s);
    }
  }

  /** The guard misses a wrap: this length of more than 2^64 is accepted as a smaller one. */
  lemma LengthWraps(resets: Policy, m: Machine) returns (m': Machine)
    requires m.f.state.HeaderValueStart? && m.f.headerState.HContentLength? && m.f.nread + 20 <= HTTP_MAX_HEADER_SIZE
    ensures Reads(resets, m, "30000000000000000000", m') && m'.f.contentLength == 11553255926290448384
    ensures AllNum("30000000000000000000") && DecValue("30000000000000000000") == 30000000000000000000
  {
    hide Step, Push, Reads, Run, DecValue, Shift64, Ten, Zeros;
    var s := "3000000000000000000";
    ZerosAfter('3', 18);
    Eighteen();
    var m1 := LengthExact(resets, m, s);
    Wrapped();
    LengthByte(resets, m1, '0');
    m' := Step(resets, m1, '0').0;
    ReadsOne(resets, m1, '0');
    DecMore(s, '0');
    ReadsConcat(resets, m, s, m1, "0", m');
    assert s + "0" == "30000000000000000000";
  }

  lemma Wrapped()
    ensures Shift64(3000000000000000000, 10, 0) == Some(11553255926290448384)
  {
  }

  function Zeros(n: nat): (s: string)
    ensures |s| == n && AllNum(s)
  {
    if n == 0 then "" else Zeros(n - 1) + "0"
  }

  function Ten(n: nat): nat {
    if n == 0 then 1 else 10 * Ten(n - 1)
  }

  lemma {:induction false} ZerosAfter(c: char, n: nat)
    requires IsNum(c)
    ensures AllNum([c] + Zeros(n)) && DecValue([c] + Zeros(n)) == Digit(c) * Ten(n)
  {
    if n == 0 {
      assert [c] + Zeros(0) == [c] && [c][..0] == "";
    } else {
      ZerosAfter(c, n - 1);
      DecMore([c] + Zeros(n - 1), '0');
      assert [c] + Zeros(n) == [c] + Zeros(n - 1) + ['0'];
    }
  }

  lemma Eighteen()
    ensures "3" + Zeros(18) == "3000000000000000000" && Ten(18) == 1000000000000000000
  {
    assert Zeros(6) == "000000" && Ten(6) == 1000000;
    assert Zeros(12) == "000000000000" && Ten(12) == 1000000000000;
  }

  // ---------- Chunk sizes ----------

  /** One more byte of a chunk size. */
  function SizeNext(n: nat, ch: char): Option<nat> {
    if Unhex(ch) == -1 then None else Shift64(n, 16, Unhex(ch))
  }

  function SizeFrom(n: nat, t: string): Option<nat>
    decreases |t|
  {
    if t == "" then Some(n)
    else if SizeNext(n, t[0]).None? then None
    else SizeFrom(SizeNext(n, t[0]).value, t[1..])
  }

  /** No byte of the text ends a chunk size. */
  predicate SizeOnly(t: string) {
    forall i | 0 <= i < |t| :: t[i] != CR && t[i] != ';' && t[i] != ' '
  }

  lemma SizeByte(resets: Policy, m: Machine, ch: char)
    requires m.f.state.ChunkSize? && m.f.flags.chunked && ch != CR && ch != ';' && ch != ' ' && m.f.nread < HTTP_MAX_HEADER_SIZE
    ensures var (m', v) := Step(resets, m, ch);
      match SizeNext(m.f.contentLength, ch)
      case None => v.Failed?
      case Some(t) => v.Going? && m' == m.(f := Counted(m.f).(contentLength := t))
  {
    hide Switch, Push, Shift64, Unhex;
    UnhexRange(ch);
    Opened(Counted(m.f), ch);
    if SizeNext(m.f.contentLength, ch).Some? {
      StepBreak(resets, m, ch);
    }
  }

  lemma CrNotHex()
    ensures Unhex(CR) == -1 && Unhex(';') == -1 && Unhex(' ') == -1
  {
  }

  lemma {:induction false} SizeTail(resets: Policy, m: Machine, t: string) returns (m': Machine)
    requires m.f.state.ChunkSize? && m.f.flags.chunked && SizeOnly(t) && SizeFrom(m.f.contentLength, t).Some?
    requires m.f.nread + |t| <= HTTP_MAX_HEADER_SIZE
    ensures Reads(resets, m, t, m')
    ensures m' == m.(f := m.f.(contentLength := SizeFrom(m.f.contentLength, t).value, nread := m.f.nread + |t|))
    decreases |t|
  {
    hide Step, Reads, Run, SizeNext;
    if t == "" {
      m' := m;
      ReadsNothing(resets, m);
    } else {
      SizeByte(resets, m, t[0]);
      var m1 := Step(resets, m, t[0]).0;
      m' := SizeTail(resets, m1, t[1..]);
      ReadsCons(resets, m, m1, t, m');
    }
  }

  lemma {:induction false} SizeStops(resets: Policy, m: Machine, t: string)
    requires m.f.state.ChunkSize? && m.f.flags.chunked && SizeOnly(t) && SizeFrom(m.f.contentLength, t).None?
    requires m.f.nread + |t| <= HTTP_MAX_HEADER_SIZE
    ensures Run(resets, m, t).verdict.Failed?
    decreases |t|
  {
    hide Step, SizeNext;
    SizeByte(resets, m, t[0]);
    if SizeNext(m.f.contentLength, t[0]).Some? {
      SizeStops(resets, Step(resets, m, t[0]).0, t[1..]);
    }
  }

  lemma SizeFirst(resets: Policy, m: Machine, ch: char)
    requires m.f.state.ChunkSizeStart? && m.f.flags.chunked && m.f.nread == 0
    ensures Unhex(ch) != -1 ==>
              (Unhex(ch) >= 0 && Step(resets, m, ch) == (m.(f := Counted(m.f).(state := ChunkSize, contentLength := Unhex(ch))), Going))
    ensures Unhex(ch) == -1 ==> Step(resets, m, ch).1.Failed?
  {
    hide Switch, Push, Unhex;
    UnhexRange(ch);
    Opened(Counted(m.f), ch);
    if Unhex(ch) != -1 {
      StepBreak(resets, m, ch);
    }
  }

  lemma SizeFromFirst(t: string)
    requires t != ""
    ensures SizeFrom(0, t) == if Unhex(t[0]) == -1 then None else SizeFrom(Unhex(t[0]), t[1..])
  {
    UnhexRange(t[0]);
    if Unhex(t[0]) != -1 {
      ShiftExact(0, 16, Unhex(t[0]));
    }
  }

  lemma SizeRead(resets: Policy, m: Machine, s: string) returns (m': Machine)
    requires m.f.state.ChunkSizeStart? && m.f.flags.chunked && m.f.nread == 0
    requires s != "" && SizeOnly(s) && SizeFrom(0, s).Some? && |s| <= HTTP_MAX_HEADER_SIZE
    ensures Reads(resets, m, s, m')
    ensures m' == m.(f := m.f.(state := ChunkSize, contentLength := SizeFrom(0, s).value, nread := |s|))
  {
    hide Step, Reads, Run, Unhex, SizeFrom;
    SizeFirst(resets, m, s[0]);
    SizeFromFirst(s);
    var m1 := Step(resets, m, s[0]).0;
    m' := SizeTail(resets, m1, s[1..]);
    ReadsCons(resets, m, m1, s, m');
  }

  /** Of a text in which no byte ends a size: it is read if and only if all its bytes are digits to the
      table and the guard refuses none of them. */
  lemma SizeTextIff(resets: Policy, m: Machine, s: string)
    requires m.f.state.ChunkSizeStart? && m.f.flags.chunked && m.f.nread == 0
    requires s != "" && SizeOnly(s) && |s| <= HTTP_MAX_HEADER_SIZE
    ensures var r := Run(resets, m, s);
      && (r.verdict.Going? <==> SizeFrom(0, s).Some?)
      && (r.verdict.Going? ==> r.m.f.contentLength == SizeFrom(0, s).value && AllHex(s))
  {
    hide Step, Unhex, SizeFrom;
    SizeFirst(resets, m, s[0]);
    SizeFromFirst(s);
    if SizeFrom(0, s).Some? {
      var m' := SizeRead(resets, m, s);
      SizeIsSmall(0, s);
    } else if Unhex(s[0]) != -1 {
      SizeStops(resets, Step(resets, m, s[0]).0, s[1..]);
    }
  }

  lemma {:induction false} SizeIsSmall(n: nat, t: string)
    requires n < ULLONG_MAX && SizeFrom(n, t).Some?
    ensures SizeFrom(n, t).value < ULLONG_MAX && AllHex(t)
    decreases |t|
  {
    if t != "" {
      SizeIsSmall(SizeNext(n, t[0]).value, t[1..]);
      assert forall i | 1 <= i < |t| :: t[i] == t[1..][i - 1];
    }
  }

  lemma {:induction false} SizeFromExact(s: string, t: string)
    requires AllHex(s) && AllHex(t) && AllHex(s + t) && HexValue(s + t) < ULLONG_MAX
    ensures SizeFrom(HexValue(s), t) == Some(HexValue(s + t))
    decreases |t|
  {
    hide HexValue, Shift64, Unhex;
    if t == "" {
      assert s + t == s;
    } else {
      var s1 := s + [t[0]];
      assert s1 + t[1..] == s + t;
      UnhexRange(t[0]);
      HexMore(s, t[0]);
      HexGrows(s1, t[1..]);
      ShiftExact(HexValue(s), 16, Unhex(t[0]));
      SizeFromExact(s1, t[1..]);
    }
  }

  lemma HexIsSizeOnly(s: string)
    requires AllHex(s)
    ensures SizeOnly(s)
  {
    CrNotHex();
  }

  /** Which byte starts a chunk size: a hexadecimal digit, as section 3.6.1 of RFC 2616 wants, and besides
      any byte of 128 or more, which counts as 0. */
  lemma SizeStartIff(resets: Policy, m: Machine, ch: char)
    requires m.f.state.ChunkSizeStart? && m.f.flags.chunked && m.f.nread == 0
    ensures Step(resets, m, ch).1.Going? <==> IsHex(ch) || ch as int >= 128
    ensures ch as int >= 128 ==> Step(resets, m, ch).0.f.contentLength == 0
  {
    hide Step;
    SizeFirst(resets, m, ch);
  }

  /** A chunk size below 2^64 - 1 is read and stored exactly, in either case of its letters. */
  lemma SizeExact(resets: Policy, m: Machine, s: string) returns (m': Machine)
    requires m.f.state.ChunkSizeStart? && m.f.flags.chunked && m.f.nread == 0
    requires s != "" && AllHex(s) && HexValue(s) < ULLONG_MAX && |s| <= HTTP_MAX_HEADER_SIZE
    ensures Reads(resets, m, s, m')
    ensures m' == m.(f := m.f.(state := ChunkSize, contentLength := HexValue(s), nread := |s|))
  {
    hide Reads, Run, SizeFrom, HexValue, Unhex;
    HexIsSizeOnly(s);
    NothingIsZeroHex();
    assert "" + s == s;
    SizeFromExact("", s);
    m' := SizeRead(resets, m, s);
  }

  lemma NothingIsZeroHex()
    ensures HexValue("") == 0
  {
  }

  /** Exactly the sizes below 2^64 - 1 are read and stored as the number they denote. */
  lemma SizeIff(resets: Policy, m: Machine, s: string)
    requires m.f.state.ChunkSizeStart? && m.f.flags.chunked && m.f.nread == 0
    requires s != "" && AllHex(s) && |s| <= HTTP_MAX_HEADER_SIZE
    ensures var r := Run(resets, m, s);
      r.verdict.Going? && r.m.f.contentLength == HexValue(s) <==> HexValue(s) < 18446744073709551615
  {
    hide Run, HexValue, Unhex, SizeFrom;
    HexIsSizeOnly(s);
    SizeTextIff(resets, m, s);
    if HexValue(s) < ULLONG_MAX {
      NothingIsZeroHex();
      assert "" + s == s;
      SizeFromExact("", s);
    }
    if SizeFrom(0, s).Some? {
      SizeIsSmall(0, s);
    }
  }
}
