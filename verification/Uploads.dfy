/** Bodies that are stored: on every run, a request that is accepted has stored exactly the bytes that
    its framing announced, and requests with a length are accepted up to the limit. */
module Uploads {
  import opened Bytes
  import opened HttpTypes
  import opened EventLog
  import opened Machine
  import opened Grammar
  import opened Execution
  import opened Fragmentation
  import opened Recognisers
  import opened Accumulators
  import opened HeaderLines
  import opened MessageRuns
  import opened Headers
  import opened QueryString
  import opened BodyStore
  import opened Receiver
  import opened RoundTrips
  import opened Printing

  // ---------- Every run ----------

  /** The body bytes that were called back. */
  function BodyBytes(events: seq<Event>): string {
    if events == [] then ""
    else
      var e := events[|events| - 1];
      BodyBytes(events[..|events| - 1]) + if e.Data? && e.kind.OnBody? then e.bytes else ""
  }

  lemma BodyPush(log: Log, e: Event)
    ensures BodyBytes(Push(log, e)) == BodyBytes(log + [e])
  {
    var r := Push(log, e);
    PushCases(log, e);
    assert (log + [e])[..|log|] == log;
    if e.Data? && EndsWith(log, e.kind) {
      var l0 := log[..|log| - 1];
      assert r[..|r| - 1] == l0;
      assert BodyBytes(l0) + log[|log| - 1].bytes + e.bytes == BodyBytes(l0) + (log[|log| - 1].bytes + e.bytes);
    }
  }

  lemma {:induction false} BodyJoin(trace: seq<Event>)
    ensures BodyBytes(Join(trace)) == BodyBytes(trace)
  {
    hide Push;
    if trace != [] {
      var front, e := trace[..|trace| - 1], trace[|trace| - 1];
      BodyJoin(front);
      BodyPush(Join(front), e);
      assert (Join(front) + [e])[..|Join(front)|] == Join(front);
    }
  }

  /** A receiver that loses nothing and has no error has every body byte. */
  lemma {:induction false} AllReceived(trace: seq<Event>)
    ensures var r := OnAll(Fresh(Request, []), trace);
      r.mode.Request? && (r.error.PARSE_OK? ==> r.msg.body == BodyBytes(trace))
    decreases |trace|
  {
    hide On;
    if trace != [] {
      var front, e := trace[..|trace| - 1], trace[|trace| - 1];
      AllReceived(front);
      var r := OnAll(Fresh(Request, []), front);
      ErrorStays(r, e);
      if r.error.PARSE_OK? {
        BodyOn(r, e);
      }
    }
  }

  /** What is kept of the bytes that were sent: a body that is whole if and only if it is as long, which
      it is on a healthy disk and when it fits into memory; without a disk, what fits into memory. */
  predicate Kept(disk: Disk, body: string, sent: string) {
    && |body| <= |sent| && (body == sent <==> |body| == |sent|)
    && (disk.Healthy? || |sent| <= MAX_BUFFER_SIZE ==> body == sent)
    && (disk.Missing? ==> body == Front(sent))
  }

  /** Whatever the disk does, a request that has no error has kept its body bytes as far as the disk took
      them. */
  lemma AllStored(disk: Disk, a: Received, trace: seq<Event>)
    requires Stores(disk, a, OnAll(Fresh(Request, []), trace)) && a.error.PARSE_OK?
    ensures Kept(disk, a.msg.body, BodyBytes(trace))
  {
    hide OnAll, BodyBytes;
    AllReceived(trace);
  }

  lemma BodyOn(r: Received, e: Event)
    requires r.error.PARSE_OK?
    ensures On(r, e).msg.body == r.msg.body + if e.Data? && e.kind.OnBody? then e.bytes else ""
  {
    hide Put, Atol, Get, QueryOf;
  }

  /** In a body, the phase counts its bytes and knows the framing that was called back. */
  lemma {:induction false} BodyCounts(trace: seq<Event>)
    requires NoCompletion(trace)
    ensures Heading(PhaseOf(trace)) ==> BodyBytes(trace) == ""
    ensures PhaseOf(trace).InBody? ==>
              |BodyBytes(trace)| == PhaseOf(trace).got && HeadersComplete(PhaseOf(trace).framing) in trace
    decreases |trace|
  {
    hide PhaseOf, NextPhase, BodyBytes, Heading;
    if trace == [] {
      BodyNone();
      NoPhase();
    } else {
      var front, e := trace[..|trace| - 1], trace[|trace| - 1];
      BodyCounts(front);
      PhaseLast(trace);
      BodyLast(trace);
      BodyStep(PhaseOf(front), e);
      assert trace == front + [e];
    }
  }

  lemma NoPhase()
    ensures PhaseOf([]).Between? && Heading(PhaseOf([]))
  {
  }

  lemma BodyStep(p: Phase, e: Event)
    requires !e.MessageComplete?
    ensures var q := NextPhase(p, e);
      && (Heading(q) ==> Heading(p) && !(e.Data? && e.kind.OnBody?))
      && (q.InBody? ==> if e.HeadersComplete? then Heading(p) && q == InBody(e.framing, 0)
                        else p.InBody? && q.framing == p.framing && e.Data? && e.kind.OnBody? && q.got == p.got + |e.bytes|)
  {
  }

  lemma {:induction false} PhaseConcat(xs: seq<Event>, ys: seq<Event>)
    requires PhaseOf(xs).Between?
    ensures PhaseOf(xs + ys) == PhaseOf(ys)
    decreases |ys|
  {
    hide NextPhase;
    if ys == [] {
      assert xs + ys == xs;
    } else {
      assert (xs + ys)[..|xs + ys| - 1] == xs + ys[..|ys| - 1];
      PhaseConcat(xs, ys[..|ys| - 1]);
    }
  }

  lemma StartIsBetween(trace: seq<Event>)
    requires !PhaseOf(trace).Wrong? && AtStart(trace)
    ensures PhaseOf(trace).Between?
  {
  }

  /** Every completed request of callbacks that obey the grammar: accepted, it has stored exactly its body
      bytes as far as the disk took them, and these are as many as its framing announced. */
  lemma StoredBody(disk: Disk, a: Received, trace: seq<Event>, i: nat, j: nat)
    requires Grammatical(trace) && i <= j < |trace|
    requires AtStart(trace[..i]) && NoCompletion(trace[i..j]) && trace[j].MessageComplete?
    requires Stores(disk, a, OnAll(Fresh(Request, []), trace[i..j]))
    ensures a.error.PARSE_OK? ==> Kept(disk, a.msg.body, BodyBytes(trace[i..j]))
    ensures var p := PhaseOf(trace[i..j]);
      p.InBody? ==> HeadersComplete(p.framing) in trace[i..j] && BodyIsWhole(p.framing, |BodyBytes(trace[i..j])|)
  {
    hide PhaseOf, OnAll, NextPhase, NoCompletion, Stores, Kept, BodyIsWhole;
    StartIsBetween(trace[..i]);
    var part := trace[i..j];
    assert trace[..i] + part == trace[..j];
    PhaseConcat(trace[..i], part);
    if a.error.PARSE_OK? {
      AllStored(disk, a, part);
    }
    BodyCounts(part);
    assert trace[..j + 1][..j] == trace[..j];
    assert PhaseOf(trace[..j + 1]) == NextPhase(PhaseOf(trace[..j]), trace[j]) by {
      PhaseLast(trace[..j + 1]);
    }
    Whole(PhaseOf(trace[..j]), trace[j]);
  }

  lemma PhaseLast(events: seq<Event>)
    requires events != []
    ensures PhaseOf(events) == NextPhase(PhaseOf(events[..|events| - 1]), events[|events| - 1])
  {
  }

  lemma Whole(p: Phase, e: Event)
    requires e.MessageComplete? && !NextPhase(p, e).Wrong?
    ensures p.InBody? ==> BodyIsWhole(p.framing, p.got)
  {
  }

  /** Every byte string, every policy of the completion callback, every cut and every disk, even if the
      parser fails later: a request that announces a length, is completed and has no error was sent
      exactly that many bytes.  It has stored them all if and only if it has stored that many; so it has if
      the disk is healthy or they fit into memory, and without a disk it has the first 8192. */
  lemma EveryRequest(resets: Policy, data: string, trace: seq<Event>, i: nat, j: nat, n: nat, disk: Disk, a: Received)
    requires Unsent(Join(trace), Run(resets, Machine(Init(Request), []), data).m.log) && i <= j < |trace|
    requires AtStart(trace[..i]) && NoCompletion(trace[i..j]) && trace[j].MessageComplete?
    requires PhaseOf(trace[i..j]).InBody? && PhaseOf(trace[i..j]).framing == Sized(n)
    requires Stores(disk, a, OnAll(Fresh(Request, []), trace[i..j]))
    ensures HeadersComplete(Sized(n)) in trace[i..j] && |BodyBytes(trace[i..j])| == n
    ensures a.error.PARSE_OK? ==> Kept(disk, a.msg.body, BodyBytes(trace[i..j]))
  {
    hide Run, PhaseOf, OnAll, NoCompletion, Join, Unsent, Stores, Kept;
    EveryRun(Request, resets, data);
    var log := Run(resets, Machine(Init(Request), []), data).m.log;
    assert log[..|log|] == log;
    UnsentFits(Join(trace), log);
    TraceFits(trace);
    StoredBody(disk, a, trace, i, j);
  }

  // ---------- The limit on uploads ----------

  lemma HeaderPhase(log: Log, h: Header)
    requires Heading(PhaseOf(log))
    ensures Heading(PhaseOf(log + [Data(OnHeaderField, h.name), Data(OnHeaderValue, h.value)]))
  {
    hide PhaseOf;
    var field, value := Data(OnHeaderField, h.name), Data(OnHeaderValue, h.value);
    var one, two := log + [field], log + [field, value];
    assert one[..|log|] == log && two[..|one|] == one;
    PhaseLast(one);
    PhaseLast(two);
  }

  lemma {:induction false} HeadersPhase(log: Log, hs: seq<Header>)
    requires Heading(PhaseOf(log))
    ensures Heading(PhaseOf(log + HeaderEvents(hs)))
    decreases |hs|
  {
    hide PhaseOf, Heading;
    if hs == [] {
      assert log + [] == log;
    } else {
      HeaderPhase(log, hs[0]);
      HeadersPhase(log + [Data(OnHeaderField, hs[0].name), Data(OnHeaderValue, hs[0].value)], hs[1..]);
      EventsOn(log, hs);
    }
  }

  /** A grammatical message with a length has exactly that body. */
  lemma BodyIsAnnounced(url: string, hs: seq<Header>, n: nat, body: string, snap: Snapshot)
    requires !PhaseOf([Data(OnUrl, url)] + MessageEvents(hs, Sized(n), body, snap)).Wrong?
    ensures |body| == n
  {
    hide PhaseOf, HeaderEvents;
    var first, hc := [Data(OnUrl, url)], HeadersComplete(Sized(n));
    UrlPhase(url);
    HeadersPhase(first, hs);
    var head := first + HeaderEvents(hs);
    PhaseLast(head + [hc]);
    assert (head + [hc])[..|head|] == head;
    var front := head + [hc] + BodyEvents(body);
    if body == "" {
      assert front == head + [hc];
    } else {
      PhaseLast(front);
      assert front[..|front| - 1] == head + [hc] && front[|front| - 1] == Data(OnBody, body);
    }
    var all := front + [MessageComplete(snap)];
    PhaseLast(all);
    assert all[..|front|] == front;
    assert all == first + MessageEvents(hs, Sized(n), body, snap);
  }

  lemma UrlPhase(url: string)
    ensures PhaseOf([Data(OnUrl, url)]).InUrl?
  {
    assert [Data(OnUrl, url)][..0] == [];
  }

  predicate NeverExpects(hs: seq<Header>) {
    forall i | 0 <= i < |hs| :: Key(hs[i].name) == Key(EXPECT_NAME) ==> hs[i].value != ONE_HUNDRED_CONTINUE
  }

  /** The number for which a length is read as the framing of the body, which skips blanks. */
  function Announced(value: string): nat
    requires IsLength(value)
  {
    LengthFrom(0, value).value
  }

  /** The number that is compared with the limit on uploads: that of the digits before any blank. */
  function Checked(value: string): nat {
    DecValue(Digits(value))
  }

  lemma AtolSaturates(s: string)
    requires IsLength(s)
    ensures Atol(s) == Saturate(Checked(s))
  {
    hide LengthFrom;
    assert SkipSpace(s) == s;
  }

  /** With one length among them, what the lines must keep. */
  lemma LengthDecides(hs: seq<Header>, value: string)
    requires LegalHeaders(hs) && LengthsAre(hs, value) && HasLength(hs) && IsLength(value)
    ensures Bearable(hs) <==> NeverExpects(hs) && Checked(value) <= MAX_UPLOAD_SIZE
    ensures TooLarge(PutAll([], hs)) <==> Checked(value) > MAX_UPLOAD_SIZE
  {
    hide Key, Atol, Classify, Checked, PutAll, Get, Sorted, IsLength;
    AtolSaturates(value);
    forall i | 0 <= i < |hs|
      ensures Classify(hs[i].name).LengthHeader? <==> Key(hs[i].name) == Key(CONTENT_LENGTH_NAME)
      ensures Key(CONTENT_LENGTH_NAME) != Key(EXPECT_NAME)
    {
      assert LegalHeader(hs[i]);
      ClassOfKey(hs[i].name);
    }
    var i :| 0 <= i < |hs| && Classify(hs[i].name).LengthHeader?;
    assert hs[i].value == value;
    if Bearable(hs) {
      assert BearableLine(hs[i]);
    }
    assert Sorted([]) by { EmptySorted(); }
    LastWins([], hs, CONTENT_LENGTH_NAME);
    LastIs(hs, CONTENT_LENGTH_NAME, value);
  }

  lemma {:induction false} LastIs(hs: seq<Header>, name: string, value: string)
    requires exists i | 0 <= i < |hs| :: Key(hs[i].name) == Key(name)
    requires forall i | 0 <= i < |hs| && Key(hs[i].name) == Key(name) :: hs[i].value == value
    ensures LastValue(Get([], name), hs, name) == value
    decreases |hs|
  {
    hide Key;
    if Key(hs[|hs| - 1].name) != Key(name) {
      var front := hs[..|hs| - 1];
      var i :| 0 <= i < |hs| && Key(hs[i].name) == Key(name);
      assert Key(front[i].name) == Key(name);
      LastIs(front, name, value);
    }
  }

  lemma SomeLength(hs: seq<Header>, value: string)
    requires LegalHeaders(hs) && LengthsAre(hs, value) && HasLength(hs) && value != ""
    ensures IsLength(value) && Announced(value) < ULLONG_MAX
  {
    hide Classify, LengthFrom, LegalValue, AllToken;
    var i :| 0 <= i < |hs| && Classify(hs[i].name).LengthHeader?;
    assert LegalHeader(hs[i]);
    LengthIsSmall(0, value);
  }

  /** The limit on uploads, for every request with one length, in any spelling that is accepted and among any
      other lines in any order, its callbacks cut anyhow, on any disk.  Its body is as long as the length
      announces; it is accepted if and only if its URL and the number before any blank keep the limits and it
      expects nothing; accepted, it has kept its body as far as the disk took it, and if that number is too
      large it has kept nothing. */
  lemma UploadLimit(v: Method, url: string, hs: seq<Header>, value: string, body: string, status: nat, trace: seq<Event>,
                    disk: Disk, a: Received)
    requires LegalHeaders(hs) && LengthsAre(hs, value) && HasLength(hs) && value != ""
    requires Join(trace) == RequestEvents(v, url, hs, body, status) && !PhaseOf(trace).Wrong?
    requires Stores(disk, a, OnAll(Fresh(Request, []), trace))
    ensures IsLength(value) && |body| == Announced(value)
    ensures a.error.PARSE_OK? <==> |url| <= MAX_URI_LENGTH && Checked(value) <= MAX_UPLOAD_SIZE && NeverExpects(hs)
    ensures a.error.PARSE_OK? ==> Kept(disk, a.msg.body, body)
    ensures Checked(value) > MAX_UPLOAD_SIZE ==> a.error.PARSE_BODY_TOO_LARGE? && a.msg.body == ""
  {
    hide Join, OnAll, LegalHeaders, LengthsAre, HasLength, IsLength, LengthFrom, Checked, BlockLength, PhaseOf, TooLarge, PutAll,
         Bearable, NeverExpects, HeaderEvents, QueryOf;
    var snap := Snapshot(v, status, 1, 1);
    SomeLength(hs, value);
    AnnouncedLength(ULLONG_MAX, hs, value);
    LengthDecides(hs, value);
    PhaseJoin(trace);
    BodyIsAnnounced(url, hs, Announced(value), body, snap);
    RequestDecided(url, hs, FramingFor(hs), body, snap, trace);
  }

  /** The limit is missed by the requests that announce more than they are checked for, across it: they are
      accepted with a body of more than MAX_UPLOAD_SIZE. */
  lemma LimitMissed(v: Method, url: string, hs: seq<Header>, value: string, body: string, status: nat, trace: seq<Event>,
                    disk: Disk, a: Received)
    requires LegalHeaders(hs) && LengthsAre(hs, value) && HasLength(hs) && value != ""
    requires Join(trace) == RequestEvents(v, url, hs, body, status) && !PhaseOf(trace).Wrong?
    requires Stores(disk, a, OnAll(Fresh(Request, []), trace)) && |url| <= MAX_URI_LENGTH && NeverExpects(hs)
    ensures IsLength(value)
    ensures a.error.PARSE_OK? && |body| > MAX_UPLOAD_SIZE <==> Checked(value) <= MAX_UPLOAD_SIZE < Announced(value)
    ensures disk.Healthy? && Checked(value) <= MAX_UPLOAD_SIZE < Announced(value) ==> |a.msg.body| > MAX_UPLOAD_SIZE
  {
    hide Join, OnAll, LegalHeaders, LengthsAre, HasLength, IsLength, Checked, Announced, RequestEvents, PhaseOf, NeverExpects;
    UploadLimit(v, url, hs, value, body, status, trace, disk, a);
  }

  lemma {:induction false} DigitsBefore(s: string, t: string)
    requires AllNum(s) && (t != "" ==> !IsNum(t[0]))
    ensures Digits(s + t) == s
    decreases |s|
  {
    if s == "" {
      assert s + t == t;
    } else {
      assert (s + t)[1..] == s[1..] + t;
      DigitsBefore(s[1..], t);
    }
  }

  /** The two readings of a length: the number of the digits before its first blank is checked, that of all
      its digits is announced if it is below 2^64 - 1.  So the limit is never missed without a digit behind
      a blank. */
  lemma TwoReadings(value: string, digits: string, rest: string)
    requires value == digits + rest && digits != "" && AllNum(digits) && (rest != "" ==> rest[0] == ' ')
    ensures Checked(value) == DecValue(digits)
    ensures IsLength(value) ==> DigitsAndBlanks(rest)
    ensures DigitsAndBlanks(rest) ==>
              (var all := digits + NoBlanks(rest);
               AllNum(all) && (DecValue(all) < ULLONG_MAX ==> IsLength(value) && Announced(value) == DecValue(all)))
    ensures IsLength(value) && NoBlanks(rest) == "" ==> !(Checked(value) <= MAX_UPLOAD_SIZE < Announced(value))
  {
    hide LengthFrom, DecValue, NoBlanks;
    if IsLength(value) {
      LengthIsSmall(0, value);
      assert forall i | 0 <= i < |rest| :: rest[i] == value[|digits| + i];
    }
    DigitsBefore(digits, rest);
    NoBlanksConcat(digits, rest);
    NoBlanksSame(digits);
    if DigitsAndBlanks(rest) && DecValue(digits + NoBlanks(rest)) < ULLONG_MAX {
      LengthIsDecimal(value);
    }
    assert digits + "" == digits;
  }

  lemma BlankFirst(t: string)
    ensures NoBlanks(" " + t) == NoBlanks(t)
  {
    NoBlanksConcat(" ", t);
    assert NoBlanks(" ") == NoBlanks(" "[..0]) == "";
  }

  /** A blank among its digits is enough: this length is checked as 2 and announces two million bytes. */
  lemma BlankInLength()
    ensures IsLength("2 000000") && Checked("2 000000") == 2 && Announced("2 000000") == 2000000
  {
    hide LengthFrom, DecValue, NoBlanks, IsLength, Checked, Announced;
    BlankFirst(Zeros(6));
    NoBlanksSame(Zeros(6));
    ZerosAfter('2', 6);
    ZerosAfter('2', 0);
    SixZeros();
    assert ['2'] + Zeros(0) == "2";
    TwoReadings("2 000000", "2", " " + Zeros(6));
  }

  function GapHeaders(): seq<Header> {
    [Header(CONTENT_LENGTH_NAME, "2 000000")]
  }

  lemma GapLine()
    ensures LegalHeaders(GapHeaders()) && PlainHeaders(GapHeaders()) && HasLength(GapHeaders()) && LengthsAre(GapHeaders(), "2 000000")
    ensures NeverExpects(GapHeaders())
  {
    hide Classify, Key, IsLength, Announced;
    BlankInLength();
    LengthKey();
    ClassOfKey(CONTENT_LENGTH_NAME);
    assert LegalHeader(GapHeaders()[0]);
    assert Classify(GapHeaders()[0].name).LengthHeader?;
  }

  lemma GapIsLegal(body: string)
    requires |body| == 2000000
    ensures LegalHeaders(GapHeaders()) && LegalRequest(POST, "/", GapHeaders(), body)
  {
    hide Classify, Key, IsLength, Checked, LengthFrom, LegalHeaders, PlainHeaders, LengthsAre, HasLength, BlockLength;
    GapLine();
    BlankInLength();
    AnnouncedLength(ULLONG_MAX, GapHeaders(), "2 000000");
    assert |Lines(GapHeaders())| <= 40;
  }

  /** The callbacks of any run, cut anyhow, obey the grammar. */
  lemma RunTraceFits(t: Type, resets: Policy, data: string, trace: seq<Event>)
    requires Join(trace) == Run(resets, Machine(Init(t), []), data).m.log
    ensures !PhaseOf(trace).Wrong?
  {
    hide Run, PhaseOf, Join;
    EveryRun(t, resets, data);
    var log := Join(trace);
    assert log[..|log|] == log;
    PhaseJoin(trace);
  }

  /** So two million bytes are uploaded with it, to any parser that is fresh. */
  lemma GapUpload(resets: Policy, body: string, trace: seq<Event>, disk: Disk, a: Received) returns (m': Machine)
    requires |body| == 2000000
    ensures Reads(resets, Machine(Init(Request), []), RequestHead(POST, "/", GapHeaders()) + body, m')
    ensures Join(trace) == m'.log && Stores(disk, a, OnAll(Fresh(Request, []), trace)) ==>
              (a.error.PARSE_OK? && Kept(disk, a.msg.body, body))
  {
    hide Reads, Run, Join, OnAll, Stores, Kept, RequestEvents, LegalRequest, GapHeaders, LegalHeaders, PhaseOf;
    GapIsLegal(body);
    m' := RequestRead(resets, Machine(Init(Request), []), POST, "/", GapHeaders(), body);
    if Join(trace) == m'.log && Stores(disk, a, OnAll(Fresh(Request, []), trace)) {
      ReadLog(resets, Machine(Init(Request), []), RequestHead(POST, "/", GapHeaders()) + body, m');
      RunTraceFits(Request, resets, RequestHead(POST, "/", GapHeaders()) + body, trace);
      GapIsTaken(body, trace, disk, a);
    }
  }

  lemma ReadLog(resets: Policy, m: Machine, s: string, m': Machine)
    requires Reads(resets, m, s, m')
    ensures Run(resets, m, s).m == m'
  {
  }

  lemma GapIsTaken(body: string, trace: seq<Event>, disk: Disk, a: Received)
    requires LegalHeaders(GapHeaders()) && Join(trace) == RequestEvents(POST, "/", GapHeaders(), body, 0) && !PhaseOf(trace).Wrong?
    requires Stores(disk, a, OnAll(Fresh(Request, []), trace))
    ensures a.error.PARSE_OK? && Kept(disk, a.msg.body, body)
  {
    hide Join, OnAll, Stores, Kept, RequestEvents, GapHeaders, LegalHeaders, PhaseOf, LengthsAre, HasLength, IsLength, Checked, NeverExpects;
    GapLine();
    BlankInLength();
    UploadLimit(POST, "/", GapHeaders(), "2 000000", body, 0, trace, disk, a);
  }

  lemma SixZeros()
    ensures "2" + (" " + Zeros(6)) == "2 000000" && Ten(6) == 1000000 && Ten(0) == 1
  {
    assert Zeros(3) == "000" && Ten(3) == 1000;
  }

  lemma BodyLast(events: seq<Event>)
    requires events != []
    ensures var e := events[|events| - 1];
      BodyBytes(events) == BodyBytes(events[..|events| - 1]) + if e.Data? && e.kind.OnBody? then e.bytes else ""
  {
  }

  lemma BodyNone()
    ensures BodyBytes([]) == ""
  {
  }
}
