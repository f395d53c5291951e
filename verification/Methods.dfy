/** Which words are taken for which methods. */
module Methods {
  import opened Bytes
  import opened HttpTypes
  import opened Dispatch
  import opened Machine
  import opened Recognisers

  // ---------- One word as a fold ----------

  /** The method after one more byte of its name, if the byte is let through. */
  function NextMethod(v: Method, i: nat, ch: char): (r: Option<Method>)
    requires i <= |MethodString(v)|
    ensures r.Some? ==> i + 1 <= |MethodString(r.value)|
  {
    Lengthy(v);
    if ch == '\0' then None
    else if i < |MethodString(v)| && ch == MethodString(v)[i] then Some(v)
    else
      OtherIsLonger(v, i, ch);
      OtherMethod(v, i, ch)
  }

  lemma Lengthy(v: Method)
    ensures 3 <= |MethodString(v)| <= 11
  {
  }

  lemma OtherIsLonger(v: Method, i: nat, ch: char)
    requires i <= |MethodString(v)|
    ensures OtherMethod(v, i, ch).Some? ==> i + 1 <= |MethodString(OtherMethod(v, i, ch).value)|
  {
  }

  function Follow(v: Method, i: nat, t: string): (r: Option<Method>)
    requires i <= |MethodString(v)|
    ensures r.Some? ==> i + |t| <= |MethodString(r.value)|
    decreases |t|
  {
    if t == "" then Some(v)
    else if NextMethod(v, i, t[0]).None? then None
    else Follow(NextMethod(v, i, t[0]).value, i + 1, t[1..])
  }

  /** The method that a whole word names. */
  function Named(w: string): (r: Option<Method>)
    ensures r.Some? ==> |w| <= |MethodString(r.value)|
  {
    if w == "" || FirstMethod(w[0]).None? then None
    else
      Lengthy(FirstMethod(w[0]).value);
      Follow(FirstMethod(w[0]).value, 1, w[1..])
  }

  // ---------- What the fold computes ----------

  /** The methods whose third byte is looked at. */
  predicate Strict(v: Method) {
    v.CONNECT? || v.COPY? || v.MKCOL? || v.MKACTIVITY? || v.SUBSCRIBE? || v.PURGE? || v.UNSUBSCRIBE?
  }

  predicate ThirdByte(v: Method, ch: char) {
    if Strict(v) then ch == MethodString(v)[2] else ch != '\0' && (v.PUT? ==> ch != 'R') && (v.UNLOCK? ==> ch != 'S')
  }

  /** The word is as long as the name and agrees with it, third bytes apart. */
  predicate TakenFor(w: string, v: Method) {
    && |w| == |MethodString(v)| && ThirdByte(v, w[2])
    && forall i | 0 <= i < |w| && i != 2 :: w[i] == MethodString(v)[i]
  }

  /** The method to which the first two bytes of a name lead. */
  function Stem(v: Method): Method {
    match v
    case COPY => CONNECT
    case MKACTIVITY => MKCOL
    case PURGE => PUT
    case UNSUBSCRIBE => UNLOCK
    case PROPPATCH => PROPFIND
    case _ => v
  }

  lemma StemLetters(v: Method)
    ensures MethodString(Stem(v))[0] == MethodString(v)[0] && MethodString(Stem(v))[1] == MethodString(v)[1]
    ensures Stem(Stem(v)) == Stem(v)
  {
  }

  lemma FirstByte(a: char)
    ensures FirstMethod(a).Some? ==> MethodString(FirstMethod(a).value)[0] == a && Stem(FirstMethod(a).value) == FirstMethod(a).value
  {
  }

  lemma NameBegins(v: Method)
    ensures var s := MethodString(Stem(v));
      && FirstMethod(s[0]).Some? && NextMethod(FirstMethod(s[0]).value, 1, s[1]) == Some(Stem(v))
  {
  }

  lemma OtherSecond(u: Method, b: char)
    requires OtherMethod(u, 1, b).Some? && Stem(u) == u
    ensures var v := OtherMethod(u, 1, b).value;
      Stem(v) == v && MethodString(v)[0] == MethodString(u)[0] && MethodString(v)[1] == b
  {
  }

  lemma SecondByte(u: Method, b: char)
    requires Stem(u) == u && NextMethod(u, 1, b).Some?
    ensures var v := NextMethod(u, 1, b).value;
      Stem(v) == v && MethodString(v)[0] == MethodString(u)[0] && MethodString(v)[1] == b
  {
    hide MethodString, OtherMethod, Stem;
    if OtherMethod(u, 1, b).Some? {
      OtherSecond(u, b);
    }
  }

  lemma ThirdByteIs(u: Method, c: char, v: Method)
    requires Stem(u) == u
    ensures NextMethod(u, 2, c) == Some(v) <==> Stem(v) == u && ThirdByte(v, c) && !v.PROPPATCH?
  {
  }

  /** Behind the third byte a name must continue as it is spelled. */
  lemma {:induction false} TailIs(v: Method, i: nat, t: string)
    requires 3 <= i <= |MethodString(v)| && (v.PROPFIND? ==> i > 4)
    ensures Follow(v, i, t) == if t <= MethodString(v)[i..] then Some(v) else None
    decreases |t|
  {
    hide MethodString;
    if t != "" {
      NoOther(v, i, t[0]);
      if NextMethod(v, i, t[0]).Some? {
        TailIs(v, i + 1, t[1..]);
        PrefixOn(t, MethodString(v), i);
      }
    }
  }

  lemma NoNul(v: Method)
    ensures forall i | 0 <= i < |MethodString(v)| :: MethodString(v)[i] != '\0' && MethodString(v)[i] != ' '
  {
  }

  lemma NoOther(v: Method, i: nat, ch: char)
    requires 3 <= i <= |MethodString(v)| && (v.PROPFIND? ==> i > 4)
    ensures NextMethod(v, i, ch) == if i < |MethodString(v)| && ch == MethodString(v)[i] then Some(v) else None
  {
    hide MethodString;
    NoNul(v);
  }

  lemma PrefixOn(t: string, s: string, i: nat)
    requires t != "" && i < |s| && t[0] == s[i]
    ensures t[1..] <= s[i + 1..] <==> t <= s[i..]
  {
    assert s[i..] == [s[i]] + s[i + 1..] && t == [t[0]] + t[1..];
  }

  /** Only PROPFIND may still become another method then. */
  lemma BehindThird(u: Method, t: string, v: Method)
    requires 3 <= |MethodString(u)| && !u.PROPPATCH? && 3 + |t| == |MethodString(v)|
    ensures Follow(u, 3, t) == Some(v) <==>
              (u == if v.PROPPATCH? then PROPFIND else v) && t == MethodString(v)[3..]
  {
    hide MethodString, Follow;
    Lengthy(v);
    if u.PROPFIND? {
      PropIs(t, v);
    } else {
      TailIs(u, 3, t);
      if t <= MethodString(u)[3..] && u == v {
        assert t == MethodString(v)[3..];
      }
    }
  }

  lemma Prop()
    ensures MethodString(PROPFIND)[3..] == "PF" + MethodString(PROPFIND)[5..]
    ensures MethodString(PROPPATCH)[3..] == "PP" + MethodString(PROPPATCH)[5..]
    ensures |MethodString(PROPFIND)| == 8 && |MethodString(PROPPATCH)| == 9
  {
  }

  lemma PropBytes(a: char, b: char)
    ensures NextMethod(PROPFIND, 3, a) == if a == 'P' then Some(PROPFIND) else None
    ensures NextMethod(PROPFIND, 4, b) == if b == 'F' then Some(PROPFIND) else if b == 'P' then Some(PROPPATCH) else None
  {
  }

  lemma FollowProp(t: string)
    requires |t| >= 2
    ensures Follow(PROPFIND, 3, t) ==
              if t[0] != 'P' then None
              else if t[1] == 'F' then Follow(PROPFIND, 5, t[2..])
              else if t[1] == 'P' then Follow(PROPPATCH, 5, t[2..])
              else None
  {
    hide MethodString, NextMethod;
    Prop();
    PropBytes(t[0], t[1]);
    assert t[1..][0] == t[1] && t[1..][1..] == t[2..];
    if t[0] == 'P' {
      assert Follow(PROPFIND, 3, t) == Follow(PROPFIND, 4, t[1..]);
    }
  }

  lemma PropIs(t: string, v: Method)
    requires 3 + |t| == |MethodString(v)|
    ensures Follow(PROPFIND, 3, t) == Some(v) <==> (v.PROPFIND? || v.PROPPATCH?) && t == MethodString(v)[3..]
  {
    hide MethodString, NextMethod;
    Prop();
    if |t| >= 2 {
      FollowProp(t);
      hide Follow;
      var u := t[2..];
      assert t == [t[0], t[1]] + u;
      TailIs(PROPFIND, 5, u);
      TailIs(PROPPATCH, 5, u);
    } else if t != "" {
      PropBytes(t[0], t[0]);
    }
  }

  // ---------- Whole words ----------

  /** The method to which three bytes lead. */
  function Lead(a: char, b: char, c: char): (r: Option<Method>)
    ensures r.Some? ==> 3 <= |MethodString(r.value)|
  {
    if FirstMethod(a).None? then None
    else
      var u1 := FirstMethod(a).value;
      Lengthy(u1);
      if NextMethod(u1, 1, b).None? then None else NextMethod(NextMethod(u1, 1, b).value, 2, c)
  }

  lemma NamedByLead(w: string)
    requires |w| >= 3
    ensures Named(w) == if Lead(w[0], w[1], w[2]).None? then None else Follow(Lead(w[0], w[1], w[2]).value, 3, w[3..])
  {
    hide MethodString, FirstMethod, NextMethod;
    if FirstMethod(w[0]).Some? {
      var u1, t := FirstMethod(w[0]).value, w[1..];
      Lengthy(u1);
      assert t[0] == w[1] && t[1..] == w[2..];
      if NextMethod(u1, 1, w[1]).Some? {
        assert w[2..][0] == w[2] && w[2..][1..] == w[3..];
        assert Follow(u1, 1, t) == Follow(NextMethod(u1, 1, w[1]).value, 2, w[2..]);
      }
    }
  }

  lemma LeadIs(a: char, b: char, c: char, v: Method)
    ensures Lead(a, b, c) == Some(v) <==>
              !v.PROPPATCH? && a == MethodString(v)[0] && b == MethodString(v)[1] && ThirdByte(v, c)
  {
    hide MethodString, FirstMethod, NextMethod, ThirdByte, Stem;
    Lengthy(v);
    StemLetters(v);
    NameBegins(v);
    FirstByte(a);
    if FirstMethod(a).Some? {
      var u1 := FirstMethod(a).value;
      Lengthy(u1);
      if NextMethod(u1, 1, b).Some? {
        SecondByte(u1, b);
        ThirdByteIs(NextMethod(u1, 1, b).value, c, v);
      }
    }
  }

  lemma AgreeIs(w: string, s: string)
    requires 3 <= |w| == |s|
    ensures (forall i | 0 <= i < |w| && i != 2 :: w[i] == s[i]) <==> w[0] == s[0] && w[1] == s[1] && w[3..] == s[3..]
  {
    if w[3..] == s[3..] {
      assert forall i | 3 <= i < |w| :: w[i] == w[3..][i - 3] && s[i] == s[3..][i - 3];
    }
  }

  lemma ThirdOfProp(c: char)
    ensures ThirdByte(PROPFIND, c) <==> ThirdByte(PROPPATCH, c)
    ensures MethodString(PROPFIND)[0] == MethodString(PROPPATCH)[0] && MethodString(PROPFIND)[1] == MethodString(PROPPATCH)[1]
  {
  }

  /** The fold gives the method that the word is taken for. */
  lemma WordIs(w: string, v: Method)
    ensures Named(w) == Some(v) && |w| == |MethodString(v)| <==> TakenFor(w, v)
  {
    hide MethodString, FirstMethod, NextMethod, ThirdByte, Stem, Named, Lead;
    Lengthy(v);
    if |w| == |MethodString(v)| {
      NamedByLead(w);
      AgreeIs(w, MethodString(v));
      ThirdOfProp(w[2]);
      LeadIs(w[0], w[1], w[2], if v.PROPPATCH? then PROPFIND else v);
      if Lead(w[0], w[1], w[2]).Some? {
        LeadIs(w[0], w[1], w[2], Lead(w[0], w[1], w[2]).value);
        BehindThird(Lead(w[0], w[1], w[2]).value, w[3..], v);
      }
    }
  }

  // ---------- The parser reads a word ----------

  lemma MethodStep(resets: Policy, m: Machine, ch: char)
    requires m.f.state.ReqMethod? && m.f.index <= |MethodString(m.f.verb)| && m.f.nread < HTTP_MAX_HEADER_SIZE
    requires ch == ' ' ==> m.f.index < |MethodString(m.f.verb)|
    ensures match NextMethod(m.f.verb, m.f.index, ch)
      case None => Step(resets, m, ch).1.Failed?
      case Some(v) => Step(resets, m, ch) == (m.(f := Counted(m.f).(verb := v, index := m.f.index + 1)), Going)
  {
    hide Switch, MethodString, OtherMethod;
    NoNul(m.f.verb);
    Opened(Counted(m.f), ch);
    if NextMethod(m.f.verb, m.f.index, ch).Some? {
      StepBreak(resets, m, ch);
    }
  }

  lemma MethodEnd(resets: Policy, m: Machine)
    requires m.f.state.ReqMethod? && m.f.nread < HTTP_MAX_HEADER_SIZE && m.f.index == |MethodString(m.f.verb)|
    ensures Step(resets, m, ' ') == (m.(f := Counted(m.f).(index := m.f.index + 1, state := ReqSpacesBeforeUrl)), Going)
  {
    hide Switch, MethodString;
    Opened(Counted(m.f), ' ');
    StepBreak(resets, m, ' ');
  }

  /** The fields at the start of a request line. */
  function Begun(f: Fields): Fields {
    f.(flags := NO_FLAGS, contentLength := ULLONG_MAX)
  }

  lemma FirstLetter(resets: Policy, m: Machine, ch: char)
    requires m.f.state.StartReq? && m.f.nread < HTTP_MAX_HEADER_SIZE && ch != CR && ch != LF
    ensures match FirstMethod(ch)
      case None => Step(resets, m, ch).1.Failed?
      case Some(v) => Step(resets, m, ch) == (m.(f := Begun(Counted(m.f)).(verb := v, index := 1, state := ReqMethod)), Going)
  {
    hide Switch, FirstMethod;
    LetterFirst(ch);
    Opened(Counted(m.f), ch);
    if FirstMethod(ch).Some? {
      StepBreak(resets, m, ch);
    }
  }

  lemma LetterFirst(ch: char)
    ensures FirstMethod(ch).Some? ==> IsAlpha(ch)
  {
  }

  /** A name has no space but perhaps as its third byte, where one may pass. */
  predicate SpaceThird(i: nat, t: string) {
    forall k | 0 <= k < |t| && t[k] == ' ' :: i + k == 2
  }

  lemma {:induction false} MethodTail(resets: Policy, m: Machine, t: string)
    requires m.f.state.ReqMethod? && m.f.index <= |MethodString(m.f.verb)| && SpaceThird(m.f.index, t)
    requires m.f.nread + |t| <= HTTP_MAX_HEADER_SIZE
    ensures match Follow(m.f.verb, m.f.index, t)
      case None => Run(resets, m, t).verdict.Failed?
      case Some(v) => Reads(resets, m, t, m.(f := m.f.(verb := v, index := m.f.index + |t|, nread := m.f.nread + |t|)))
    decreases |t|
  {
    hide Step, MethodString, NextMethod;
    if t != "" {
      Lengthy(m.f.verb);
      MethodStep(resets, m, t[0]);
      if NextMethod(m.f.verb, m.f.index, t[0]).Some? {
        MethodTail(resets, Step(resets, m, t[0]).0, t[1..]);
      }
    }
  }

  predicate Word(w: string) {
    SpaceThird(0, w) && (w != "" ==> w[0] != CR && w[0] != LF)
  }

  lemma WordRead(resets: Policy, m: Machine, w: string)
    requires m.f.state.StartReq? && w != "" && Word(w) && m.f.nread + |w| <= HTTP_MAX_HEADER_SIZE
    ensures match Named(w)
      case None => Run(resets, m, w).verdict.Failed?
      case Some(v) => Reads(resets, m, w, m.(f := Begun(m.f).(verb := v, state := ReqMethod, index := |w|, nread := m.f.nread + |w|)))
  {
    hide Step, MethodString, FirstMethod, Follow;
    FirstLetter(resets, m, w[0]);
    if FirstMethod(w[0]).Some? {
      Lengthy(FirstMethod(w[0]).value);
      MethodTail(resets, Step(resets, m, w[0]).0, w[1..]);
    }
  }

  /** Which words are methods: with the space behind it, a word is taken for a method if and only if it has
      its length and agrees with it everywhere but in the third byte; there any byte but NUL passes, except
      for the methods that a third byte leads to or away from. */
  lemma WordIff(resets: Policy, m: Machine, w: string, v: Method)
    requires m.f.state.StartReq? && Word(w) && m.f.nread + |w| + 1 <= HTTP_MAX_HEADER_SIZE
    ensures var r := Run(resets, m, w + " ");
      r.verdict.Going? && r.m.f.state.ReqSpacesBeforeUrl? && r.m.f.verb == v <==> TakenFor(w, v)
  {
    hide Step, MethodString, Named, TakenFor;
    RunConcat(resets, m, w, " ");
    WordIs(w, v);
    if w == "" {
      Lengthy(v);
      FirstLetter(resets, m, ' ');
      assert w + " " == " ";
    } else {
      WordRead(resets, m, w);
      if Named(w).Some? {
        SpaceBehind(resets, Run(resets, m, w).m);
      }
    }
  }

  lemma SpaceBehind(resets: Policy, m: Machine)
    requires m.f.state.ReqMethod? && m.f.index <= |MethodString(m.f.verb)| && m.f.nread < HTTP_MAX_HEADER_SIZE
    ensures var r := Run(resets, m, " ");
      && (r.verdict.Going? && r.m.f.state.ReqSpacesBeforeUrl? <==> m.f.index == |MethodString(m.f.verb)|)
      && (m.f.index == |MethodString(m.f.verb)| ==>
            r == Ran(m.(f := Counted(m.f).(index := m.f.index + 1, state := ReqSpacesBeforeUrl)), 1, Going))
  {
    hide Step, MethodString, NextMethod;
    if m.f.index == |MethodString(m.f.verb)| {
      MethodEnd(resets, m);
    } else {
      MethodStep(resets, m, ' ');
    }
  }

  /** Such a word and the space after it. */
  lemma TakenRead(resets: Policy, m: Machine, w: string, v: Method) returns (m': Machine)
    requires m.f.state.StartReq? && TakenFor(w, v) && m.f.nread + |w| + 1 <= HTTP_MAX_HEADER_SIZE
    ensures Reads(resets, m, w + " ", m')
    ensures m' == m.(f := Begun(m.f).(verb := v, state := ReqSpacesBeforeUrl, index := m'.f.index, nread := m.f.nread + |w| + 1))
  {
    hide Step, Reads, Run, MethodString, Named, TakenFor;
    Lengthy(v);
    TakenIsWord(w, v);
    WordIs(w, v);
    WordRead(resets, m, w);
    var m1 := m.(f := Begun(m.f).(verb := v, state := ReqMethod, index := |w|, nread := m.f.nread + |w|));
    m' := m1.(f := Counted(m1.f).(index := |w| + 1, state := ReqSpacesBeforeUrl));
    MethodEnd(resets, m1);
    ReadsOne(resets, m1, ' ');
    ReadsConcat(resets, m, w, m1, " ", m');
  }

  lemma TakenIsWord(w: string, v: Method)
    requires TakenFor(w, v)
    ensures Word(w) && w != "" && |w| == |MethodString(v)|
  {
    hide MethodString, ThirdByte;
    Lengthy(v);
    NoNul(v);
    FirstIsLetter(v);
  }

  lemma FirstIsLetter(v: Method)
    ensures MethodString(v)[0] != CR && MethodString(v)[0] != LF
  {
  }

  /** Every name is taken for its method. */
  lemma NameIsTaken(v: Method)
    ensures TakenFor(MethodString(v), v)
  {
    Lengthy(v);
    assert MethodString(v)[2] != '\0' && (v.PUT? ==> MethodString(v)[2] != 'R') && (v.UNLOCK? ==> MethodString(v)[2] != 'S');
  }
}
