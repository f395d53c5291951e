/** The layer above the parser: the callbacks of parser.cpp reassemble fragments into a URL, headers
    and a body, and enforce the limits. */
module Receiver {
  import opened Bytes
  import opened HttpTypes
  import opened EventLog
  import opened MessageRuns
  import opened Headers
  import opened QueryString
  import opened BodyStore

  const MAX_UPLOAD_SIZE: nat := 1024 * 1024
  const MAX_URI_LENGTH: nat := 4096

  datatype Outcome =
    | PARSE_OK | PARSE_FAILURE | PARSE_NEED_100_CONTINUE | PARSE_BODY_TOO_LARGE | PARSE_URI_TOO_LONG
    | PARSE_HANDLER_FAILURE

  /** The message that the callbacks fill in: a request's fields and a reply's code. */
  datatype Message = Message(headers: seq<Header>, body: string, verb: Method, url: string, query: Query, code: int)

  /** The parser object and its message.  `gotValue` says that a value of the current header was seen. */
  datatype Received = Received(mode: Type, error: Outcome, key: string, value: string, gotValue: bool, msg: Message)

  /** A parser that has been reset, with the headers that its message starts with. */
  function Fresh(mode: Type, headers: seq<Header>): Received {
    Received(mode, PARSE_OK, "", "", false, Message(headers, "", GET, "", map[], 200))
  }

  // ---------- atol ----------

  const LONG_MAX: int := 0x7FFF_FFFF_FFFF_FFFF

  predicate IsSpace(c: char) {
    c == ' ' || 9 <= c as int <= 13
  }

  function SkipSpace(s: string): string
    decreases |s|
  {
    if s != "" && IsSpace(s[0]) then SkipSpace(s[1..]) else s
  }

  /** The leading digits. */
  function Digits(s: string): (d: string)
    ensures AllNum(d)
    decreases |s|
  {
    if s != "" && IsNum(s[0]) then [s[0]] + Digits(s[1..]) else ""
  }

  function Saturate(n: int): int {
    if n > LONG_MAX then LONG_MAX else if n < -LONG_MAX - 1 then -LONG_MAX - 1 else n
  }

  function Atol(s: string): int {
    var t := SkipSpace(s);
    if t != "" && t[0] == '-' then Saturate(-(DecValue(Digits(t[1..])) as int))
    else if t != "" && t[0] == '+' then Saturate(DecValue(Digits(t[1..])))
    else Saturate(DecValue(Digits(t)))
  }

  lemma {:induction false} DigitsWhole(s: string)
    requires AllNum(s)
    ensures Digits(s) == s
    decreases |s|
  {
    if s != "" {
      DigitsWhole(s[1..]);
    }
  }

  lemma AtolDigits(s: string)
    requires AllNum(s) && DecValue(s) <= LONG_MAX
    ensures Atol(s) == DecValue(s)
  {
    DigitsWhole(s);
    assert SkipSpace(s) == s;
  }

  lemma {:induction false} DigitsBefore(digits: string, rest: string)
    requires AllNum(digits) && (rest == "" || !IsNum(rest[0]))
    ensures Digits(digits + rest) == digits
    decreases |digits|
  {
    if digits == "" {
      assert digits + rest == rest;
    } else {
      assert (digits + rest)[1..] == digits[1..] + rest;
      DigitsBefore(digits[1..], rest);
    }
  }

  lemma {:induction false} SpaceSkipped(blanks: string, t: string)
    requires (forall i | 0 <= i < |blanks| :: IsSpace(blanks[i])) && (t == "" || !IsSpace(t[0]))
    ensures SkipSpace(blanks + t) == t
    decreases |blanks|
  {
    if blanks == "" {
      assert blanks + t == t;
    } else {
      assert (blanks + t)[1..] == blanks[1..] + t;
      SpaceSkipped(blanks[1..], t);
    }
  }

  /** What a text means to atol: blanks, perhaps a sign, and digits up to the first other byte; numbers that do not
      fit into 64 bits become the nearest one that does.  Every text is of this form. */
  lemma AtolIs(blanks: string, sign: string, digits: string, rest: string)
    requires forall i | 0 <= i < |blanks| :: blanks[i] as int == 32 || 9 <= blanks[i] as int <= 13
    requires (sign == "" || sign == "-" || sign == "+") && AllNum(digits) && (rest == "" || !IsNum(rest[0]))
    requires sign == "" && digits == "" && rest != "" ==> !IsSpace(rest[0]) && rest[0] != '-' && rest[0] != '+'
    ensures var n: int := if sign == "-" then -(DecValue(digits) as int) else DecValue(digits);
      Atol(blanks + (sign + (digits + rest))) ==
        if n > 9223372036854775807 then 9223372036854775807 else if n < -9223372036854775808 then -9223372036854775808 else n
  {
    hide DecValue;
    var t := digits + rest;
    var s := sign + t;
    DigitsBefore(digits, rest);
    if sign == "" {
      assert s == t;
      assert t != "" && digits != "" ==> t[0] == digits[0];
      assert digits == "" ==> t == rest;
    } else {
      assert s[0] == sign[0] && s[1..] == t;
    }
    SpaceSkipped(blanks, s);
  }

  // ---------- The callbacks ----------

  const CONTENT_LENGTH_NAME := "Content-Length"
  const EXPECT_NAME := "Expect"
  const ONE_HUNDRED_CONTINUE := "100-continue"

  predicate TooLarge(headers: seq<Header>) {
    var n := Atol(Get(headers, CONTENT_LENGTH_NAME));
    n < 0 || n > MAX_UPLOAD_SIZE
  }

  predicate Expects(headers: seq<Header>) {
    Get(headers, EXPECT_NAME) == ONE_HUNDRED_CONTINUE
  }

  /** save_last_header */
  function SaveLast(r: Received): Received {
    var s := if r.gotValue
             then r.(msg := r.msg.(headers := Put(r.msg.headers, r.key, r.value)), key := "", value := "", gotValue := false)
             else r;
    if s.mode.Request? && TooLarge(s.msg.headers) then s.(error := PARSE_BODY_TOO_LARGE)
    else if s.mode.Request? && Expects(s.msg.headers) then s.(error := PARSE_NEED_100_CONTINUE)
    else s
  }

  /** add_url_fragment */
  function AddUrl(r: Received, s: string): Received {
    if r.mode.Response? || r.error.PARSE_URI_TOO_LONG? then r
    else if |r.msg.url| + |s| > MAX_URI_LENGTH then r.(error := PARSE_URI_TOO_LONG)
    else r.(msg := r.msg.(url := r.msg.url + s))
  }

  /** on_message_complete up to the call of the handler. */
  function Finish(r: Received, snap: Snapshot): Received {
    if r.mode.Request? then
      var m := r.msg.(query := QueryOf(r.msg.query, r.msg.url));
      r.(msg := if KnownMethod(snap.verb) then m.(verb := snap.verb) else m)
    else
      r.(msg := r.msg.(code := snap.statusCode))
  }

  function On(r: Received, e: Event): Received {
    match e
    case Data(OnUrl, s) => AddUrl(r, s)
    case Data(OnHeaderField, s) => var q := SaveLast(r); q.(key := q.key + s)
    case Data(OnHeaderValue, s) => r.(value := r.value + s, gotValue := true)
    case Data(OnBody, s) =>
      if r.error.PARSE_BODY_TOO_LARGE? then r else r.(msg := r.msg.(body := r.msg.body + s))
    case HeadersComplete(_) => SaveLast(r)
    case MessageComplete(snap) => Finish(r, snap)
  }

  function OnAll(r: Received, events: seq<Event>): Received
    decreases |events|
  {
    if events == [] then r else On(OnAll(r, events[..|events| - 1]), events[|events| - 1])
  }

  lemma {:induction false} OnAllConcat(r: Received, xs: seq<Event>, ys: seq<Event>)
    ensures OnAll(r, xs + ys) == OnAll(OnAll(r, xs), ys)
    decreases |ys|
  {
    hide On;
    if ys == [] {
      assert xs + ys == xs;
    } else {
      assert (xs + ys)[..|xs + ys| - 1] == xs + ys[..|ys| - 1];
      OnAllConcat(r, xs, ys[..|ys| - 1]);
    }
  }

  // ---------- Fragments ----------

  lemma SaveTwice(r: Received, s: string)
    ensures var q := SaveLast(r).(key := SaveLast(r).key + s); SaveLast(q) == q
  {
    hide Put, Atol, Get;
  }

  /** Two pieces of one kind do to the message what the whole does; for a URL as long as it fits. */
  lemma OnPieces(r: Received, k: Kind, x: string, y: string)
    requires k.OnUrl? ==> |r.msg.url| + |x| + |y| <= MAX_URI_LENGTH
    ensures On(On(r, Data(k, x)), Data(k, y)) == On(r, Data(k, x + y))
  {
    hide Put, Atol, Get, SaveLast;
    match k
    case OnUrl => assert r.msg.url + (x + y) == r.msg.url + x + y;
    case OnHeaderField =>
      SaveTwice(r, x);
      assert SaveLast(r).key + x + y == SaveLast(r).key + (x + y);
    case OnHeaderValue => assert r.value + x + y == r.value + (x + y);
    case OnBody => assert r.msg.body + x + y == r.msg.body + (x + y);
  }

  predicate IsUrl(e: Event) {
    e.Data? && e.kind.OnUrl?
  }

  predicate NoCompletion(es: seq<Event>) {
    forall i | 0 <= i < |es| :: !es[i].MessageComplete?
  }

  /** No message has begun. */
  predicate AtStart(log: Log) {
    log == [] || log[|log| - 1].MessageComplete?
  }

  /** URLs come first in their messages. */
  predicate UrlsLead(log: Log) {
    forall i | 0 <= i < |log| && IsUrl(log[i]) :: i == 0 || log[i - 1].MessageComplete? || IsUrl(log[i - 1])
  }

  /** All but the URL, of which a refused request keeps what came before the piece that was too long. */
  function Erased(r: Received): Received {
    r.(msg := r.msg.(url := "", query := map[]))
  }

  /** After `log`, two receivers that were told it in different pieces agree: on everything if there is no
      error, and but for the URL otherwise. */
  predicate Alike(a: Received, b: Received, log: Log) {
    && Erased(a) == Erased(b)
    && (a.error.PARSE_OK? || AtStart(log) ==> a == b)
    && (log != [] && IsUrl(log[|log| - 1]) ==> a.error.PARSE_URI_TOO_LONG? || a == b)
  }

  /** No callback takes an error back. */
  lemma ErrorStays(r: Received, e: Event)
    ensures On(r, e).error.PARSE_OK? ==> r.error.PARSE_OK?
    ensures On(r, e).mode == r.mode
  {
    hide Put, Atol, Get, QueryOf;
  }

  lemma OnErased(r: Received, e: Event)
    requires !IsUrl(e) && !e.MessageComplete?
    ensures Erased(On(r, e)) == On(Erased(r), e)
  {
    hide Put, Atol, Get;
  }

  lemma AlikeNew(a: Received, b: Received, log: Log, e: Event)
    requires Alike(a, b, log) && !e.MessageComplete? && (IsUrl(e) ==> AtStart(log))
    ensures Alike(On(a, e), On(b, e), log + [e])
  {
    hide On;
    ErrorStays(a, e);
    if !IsUrl(e) {
      OnErased(a, e);
      OnErased(b, e);
    }
  }

  lemma AlikeJoined(a: Received, c: Received, log: Log, k: Kind, x: string, y: string)
    requires Alike(a, On(c, Data(k, x)), log + [Data(k, x)])
    ensures Alike(On(a, Data(k, y)), On(c, Data(k, x + y)), log + [Data(k, x + y)])
  {
    hide SaveLast;
    if k.OnUrl? {
      assert c.msg.url + x + y == c.msg.url + (x + y);
    } else {
      OnPieces(c, k, x, y);
      AlikeNew(a, On(c, Data(k, x)), log + [Data(k, x)], Data(k, y));
    }
  }

  lemma PushCases(log: Log, e: Event)
    ensures if e.Data? && EndsWith(log, e.kind)
      then Push(log, e) == log[..|log| - 1] + [Data(e.kind, log[|log| - 1].bytes + e.bytes)]
      else Push(log, e) == log + [e]
  {
  }

  lemma LeadBefore(log: Log, e: Event)
    requires UrlsLead(Push(log, e))
    ensures UrlsLead(log) && (IsUrl(e) ==> AtStart(log) || EndsWith(log, OnUrl))
  {
    var l := Push(log, e);
    PushCases(log, e);
    assert forall i | 0 <= i < |log| :: IsUrl(l[i]) == IsUrl(log[i]) && l[i].MessageComplete? == log[i].MessageComplete?;
    assert !(e.Data? && EndsWith(log, e.kind)) ==> l[|log|] == e;
  }

  lemma NoneBefore(log: Log, e: Event)
    requires NoCompletion(Push(log, e))
    ensures NoCompletion(log) && !e.MessageComplete?
  {
    var l := Push(log, e);
    PushCases(log, e);
    assert forall i | 0 <= i < |log| :: l[i].MessageComplete? == log[i].MessageComplete?;
    assert l[|l| - 1].MessageComplete? == e.MessageComplete?;
  }

  /** What the callbacks do to a message depends on the joined log only: URLs, names, values and bodies
      may arrive in any pieces.  Of a URL that is too long, a different beginning may be kept. */
  lemma {:induction false} OnJoin(r: Received, trace: seq<Event>)
    requires NoCompletion(Join(trace)) && UrlsLead(Join(trace))
    ensures Alike(OnAll(r, trace), OnAll(r, Join(trace)), Join(trace))
    decreases |trace|
  {
    hide On, Push, Alike, UrlsLead, NoCompletion;
    if trace == [] {
      assert Alike(r, r, []) by { AlikeSelf(r); }
    } else {
      var front, e := trace[..|trace| - 1], trace[|trace| - 1];
      var log := Join(front);
      LeadBefore(log, e);
      NoneBefore(log, e);
      OnJoin(r, front);
      PushCases(log, e);
      var a := OnAll(r, front);
      if e.Data? && EndsWith(log, e.kind) {
        var l0, x := log[..|log| - 1], log[|log| - 1].bytes;
        assert log == l0 + [Data(e.kind, x)];
        assert Join(trace)[..|Join(trace)| - 1] == l0;
        AlikeJoined(a, OnAll(r, l0), l0, e.kind, x, e.bytes);
      } else {
        assert Join(trace)[..|Join(trace)| - 1] == log;
        AlikeNew(a, OnAll(r, log), log, e);
      }
    }
  }

  lemma AlikeSelf(r: Received)
    ensures Alike(r, r, [])
  {
  }

  lemma AlikeErased(a: Received, b: Received, log: Log)
    requires Alike(a, b, log)
    ensures Erased(a) == Erased(b) && (a.error.PARSE_OK? ==> a == b)
  {
  }

  /** The same for a message with its completion. */
  lemma OnWhole(r: Received, trace: seq<Event>, front: Log, snap: Snapshot)
    requires Join(trace) == front + [MessageComplete(snap)] && NoCompletion(front) && UrlsLead(front)
    ensures var s, t := OnAll(r, trace), OnAll(r, front + [MessageComplete(snap)]);
      Erased(s) == Erased(t) && (t.error.PARSE_OK? ==> s == t)
  {
    hide Push, Alike, UrlsLead, NoCompletion, On, QueryOf;
    var l := front + [MessageComplete(snap)];
    var before, e := trace[..|trace| - 1], trace[|trace| - 1];
    PushCases(Join(before), e);
    assert l[|l| - 1] == MessageComplete(snap) && l[..|l| - 1] == front;
    assert e == MessageComplete(snap) && Join(before) == front by {
      var j := Join(before);
      if Push(j, e) == j + [e] {
        assert (j + [e])[..|j|] == j && (j + [e])[|j|] == e;
      }
    }
    OnJoin(r, before);
    AlikeErased(OnAll(r, before), OnAll(r, front), front);
    FinishAlike(OnAll(r, before), OnAll(r, front), snap);
  }

  lemma FinishAlike(a: Received, b: Received, snap: Snapshot)
    requires Erased(a) == Erased(b) && (a.error.PARSE_OK? ==> a == b)
    ensures var s, t := On(a, MessageComplete(snap)), On(b, MessageComplete(snap));
      Erased(s) == Erased(t) && (t.error.PARSE_OK? ==> s == t)
  {
    hide QueryOf;
  }

  // ---------- The disk ----------

  /** `a` is what a parser object holds that was told what makes `b` of a receiver that stores everything.
      add_body reports no error when the disk fails: bytes are missing then, but nothing else differs,
      and none are missing if and only if the body has its whole length.  A body that fits into memory is
      whole, and without any disk exactly that much is kept. */
  predicate Stores(disk: Disk, a: Received, b: Received) {
    && a.(msg := a.msg.(body := b.msg.body)) == b
    && |a.msg.body| <= |b.msg.body|
    && (|a.msg.body| == |b.msg.body| ==> a.msg.body == b.msg.body)
    && (disk.Healthy? || |b.msg.body| <= MAX_BUFFER_SIZE ==> a.msg.body == b.msg.body)
    && (disk.Missing? ==> a.msg.body == Front(b.msg.body))
  }

  lemma StoresSelf(disk: Disk, r: Received)
    requires disk.Missing? ==> |r.msg.body| <= MAX_BUFFER_SIZE
    ensures Stores(disk, r, r)
  {
  }

  predicate IsBody(e: Event) {
    e.Data? && e.kind.OnBody?
  }

  /** All but body bytes is told to both alike. */
  lemma StoresOn(disk: Disk, a: Received, b: Received, e: Event)
    requires Stores(disk, a, b) && !IsBody(e)
    ensures Stores(disk, On(a, e), On(b, e))
  {
    hide Put, Atol, Get, QueryOf, Front;
  }

  /** Of body bytes a beginning is kept, all of it as far as the disk or the memory allows. */
  lemma StoresBody(disk: Disk, a: Received, b: Received, a': Received, s: string, k: nat)
    requires Stores(disk, a, b) && k <= |s|
    requires a.error.PARSE_BODY_TOO_LARGE? ==> a' == a
    requires !a.error.PARSE_BODY_TOO_LARGE? ==> a' == a.(msg := a.msg.(body := a.msg.body + s[..k]))
    requires !a.error.PARSE_BODY_TOO_LARGE? && (disk.Healthy? || |a.msg.body| + |s| <= MAX_BUFFER_SIZE) ==> k == |s|
    requires !a.error.PARSE_BODY_TOO_LARGE? && disk.Missing? ==> a'.msg.body == Front(a.msg.body + s)
    ensures Stores(disk, a', On(b, Data(OnBody, s)))
  {
    if !a.error.PARSE_BODY_TOO_LARGE? {
      assert s[..|s|] == s;
      FrontTwice(b.msg.body, s);
    }
  }

  lemma FrontTwice(s: string, t: string)
    ensures Front(Front(s) + t) == Front(s + t)
  {
  }
}
