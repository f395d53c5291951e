/** Request::prepare and Reply::prepare, and the round trips through the parser. */
module Printing {
  import opened Bytes
  import opened HttpTypes
  import opened Dispatch
  import opened EventLog
  import opened Machine
  import opened Recognisers
  import opened Accumulators
  import opened HeaderLines
  import opened FirstLines
  import opened StatusLines
  import opened MessageRuns
  import opened Headers
  import opened Receiver
  import opened Fragmentation
  import opened RoundTrips

  const HOST_NAME := "Host"
  const TRANSFER_ENCODING_NAME := "Transfer-Encoding"

  /** A size passed as an int. */
  function AsInt32(n: nat): int {
    var w := n % 0x1_0000_0000;
    if w >= 0x8000_0000 then w - 0x1_0000_0000 else w
  }

  function PrintInt(n: int): string {
    if n < 0 then "-" + Decimal(-n) else Decimal(n)
  }

  /** The text of add_header(Content-Length, size). */
  function SizeText(n: nat): string {
    PrintInt(AsInt32(n))
  }

  /** The header carries the size if and only if the size fits an int. */
  lemma SizeTextExact(n: nat)
    ensures AllNum(SizeText(n)) && DecValue(SizeText(n)) == n <==> n < 0x8000_0000
  {
    hide Decimal;
    if AsInt32(n) < 0 {
      assert SizeText(n)[0] == '-';
    }
  }

  /** Otherwise it carries the remainder by 2^32, from 2^31 on less 2^32. */
  lemma SizeTextWraps(n: nat, more: nat)
    ensures n < 2147483648 ==> SizeText(4294967296 * more + n) == Decimal(n)
    ensures 2147483648 <= n < 4294967296 ==> SizeText(4294967296 * more + n) == "-" + Decimal(4294967296 - n)
  {
    hide Decimal;
  }

  // ---------- Entries of a map after a write ----------

  lemma {:induction false} PutEntries(hs: seq<Header>, name: string, value: string, i: nat)
    requires Sorted(hs) && i < |Put(hs, name, value)|
    ensures var e := Put(hs, name, value)[i];
      if Key(e.name) == Key(name) then
        e.value == value && (e.name == name || exists j | 0 <= j < |hs| :: hs[j].name == e.name)
      else e in hs
    decreases |hs|
  {
    hide Key, Before, Sorted;
    if hs != [] {
      var h, rest := hs[0], hs[1..];
      assert hs == [h] + rest;
      SortedCons(h, rest);
      if Key(h.name) == Key(name) {
        assert hs[0].name == h.name;
        if i > 0 {
          assert Before(Key(h.name), Key(rest[i - 1].name));
          BeforeIrreflexive(Key(name));
        }
      } else if Before(Key(name), Key(h.name)) {
        if i > 0 {
          AllDiffer(name, hs, i - 1);
        }
      } else if i > 0 {
        PutEntries(rest, name, value, i - 1);
        var e := Put(rest, name, value)[i - 1];
        if Key(e.name) == Key(name) && e.name != name {
          var j :| 0 <= j < |rest| && rest[j].name == e.name;
          assert hs[j + 1].name == e.name;
        }
      }
    }
  }

  lemma AllDiffer(name: string, hs: seq<Header>, i: nat)
    requires Sorted(hs) && i < |hs| && Before(Key(name), Key(hs[0].name))
    ensures Key(hs[i].name) != Key(name)
  {
    hide Key, Before;
    BeforeIrreflexive(Key(name));
    if i > 0 {
      assert Before(Key(hs[0].name), Key(hs[i].name));
      BeforeTransitive(Key(name), Key(hs[0].name), Key(hs[i].name));
    }
  }

  lemma {:induction false} PutHas(hs: seq<Header>, name: string, value: string)
    ensures Has(Put(hs, name, value), name)
    decreases |hs|
  {
    hide Key, Before;
    var p := Put(hs, name, value);
    if hs == [] || Key(hs[0].name) == Key(name) || Before(Key(name), Key(hs[0].name)) {
      assert Key(p[0].name) == Key(name);
    } else {
      PutHas(hs[1..], name, value);
      var i :| 0 <= i < |Put(hs[1..], name, value)| && Key(Put(hs[1..], name, value)[i].name) == Key(name);
      assert Key(p[i + 1].name) == Key(name);
    }
  }

  lemma {:induction false} EntryIsGet(hs: seq<Header>, i: nat)
    requires Sorted(hs) && i < |hs|
    ensures Get(hs, hs[i].name) == hs[i].value
    decreases |hs|
  {
    hide Key, Before;
    if i > 0 {
      assert Before(Key(hs[0].name), Key(hs[i].name));
      BeforeIrreflexive(Key(hs[i].name));
      EntryIsGet(hs[1..], i - 1);
    }
  }

  lemma {:induction false} GetByKey(hs: seq<Header>, a: string, b: string)
    requires Key(a) == Key(b)
    ensures Get(hs, a) == Get(hs, b)
    decreases |hs|
  {
    hide Key;
    if hs != [] {
      GetByKey(hs[1..], a, b);
    }
  }

  // ---------- Keys of the headers that matter ----------

  lemma KeyIs(name: string, text: string)
    requires |name| == |text| && forall i | 0 <= i < |name| :: name[i] != '\0' && ToLower(name[i]) == text[i]
    ensures Key(name) == text
  {
    CStringWhole(name);
  }

  lemma LengthKey()
    ensures Key(CONTENT_LENGTH_NAME) == Text(CONTENT_LENGTH) && AllToken(CONTENT_LENGTH_NAME)
  {
    hide Key;
    KeyIs(CONTENT_LENGTH_NAME, Text(CONTENT_LENGTH));
  }

  lemma EncodingKey()
    ensures Key(TRANSFER_ENCODING_NAME) == Text(TRANSFER_ENCODING)
  {
    hide Key;
    KeyIs(TRANSFER_ENCODING_NAME, Text(TRANSFER_ENCODING));
  }

  lemma ShortKeys()
    ensures |Key(HOST_NAME)| == 4 && |Key(EXPECT_NAME)| == 6 && AllToken(HOST_NAME)
  {
    CStringWhole(HOST_NAME);
    CStringWhole(EXPECT_NAME);
  }

  lemma TokenNames()
    ensures AllToken(HOST_NAME) && HOST_NAME != "" && AllToken(CONTENT_LENGTH_NAME) && CONTENT_LENGTH_NAME != ""
  {
  }

  /** For tokens the parser's comparison and the map's agree. */
  lemma ClassOfKey(name: string)
    requires AllToken(name)
    ensures Classify(name).LengthHeader? <==> Key(name) == Key(CONTENT_LENGTH_NAME)
    ensures Classify(name).EncodingHeader? <==> Key(name) == Key(TRANSFER_ENCODING_NAME)
    ensures Key(name) == Key(HOST_NAME) ==> Classify(name).OtherHeader?
    ensures Key(CONTENT_LENGTH_NAME) != Key(HOST_NAME) && Key(CONTENT_LENGTH_NAME) != Key(EXPECT_NAME) && Key(HOST_NAME) != Key(EXPECT_NAME)
    ensures Key(CONTENT_LENGTH_NAME) != Key(TRANSFER_ENCODING_NAME) && Key(HOST_NAME) != Key(TRANSFER_ENCODING_NAME)
  {
    hide Text, Key, LowerString, AllToken;
    TokenKey(name);
    LengthKey();
    EncodingKey();
    ShortKeys();
    Lengths();
  }

  lemma Lengths()
    ensures forall l :: |Text(l)| == Length(l)
  {
    hide Text;
  }

  // ---------- The announced length ----------

  predicate LengthsAre(hs: seq<Header>, v: string) {
    forall i | 0 <= i < |hs| :: Classify(hs[i].name).LengthHeader? ==> hs[i].value == v
  }

  predicate HasLength(hs: seq<Header>) {
    exists i | 0 <= i < |hs| :: Classify(hs[i].name).LengthHeader?
  }

  lemma {:induction false} AnnouncedLength(n: nat, hs: seq<Header>, v: string)
    requires LegalHeaders(hs) && LengthsAre(hs, v) && IsLength(v)
    ensures BlockLength(n, hs) == if HasLength(hs) then LengthFrom(0, v).value else n
    decreases |hs|
  {
    hide Classify, LengthFrom;
    if hs != [] {
      AnnouncedLength(LineLength(n, Classify(hs[0].name), hs[0].value), hs[1..], v);
      HasLengthCons(hs);
    }
  }

  lemma HasLengthCons(hs: seq<Header>)
    requires hs != []
    ensures HasLength(hs) <==> Classify(hs[0].name).LengthHeader? || HasLength(hs[1..])
  {
    hide Classify;
    if HasLength(hs) {
      var i :| 0 <= i < |hs| && Classify(hs[i].name).LengthHeader?;
      if i > 0 {
        assert hs[1..][i - 1] == hs[i];
      }
    }
    if HasLength(hs[1..]) {
      var i :| 0 <= i < |hs[1..]| && Classify(hs[1..][i].name).LengthHeader?;
      assert Classify(hs[i + 1].name).LengthHeader?;
    }
  }

  // ---------- Requests ----------

  datatype OutgoingRequest = OutgoingRequest(verb: Method, url: string, host: string, headers: seq<Header>, body: string)

  /** The headers that prepare leaves in the map. */
  function RequestHeaders(q: OutgoingRequest): seq<Header> {
    var hs := Put(q.headers, HOST_NAME, q.host);
    if q.verb.GET? then hs else Put(hs, CONTENT_LENGTH_NAME, SizeText(|q.body|))
  }

  /** The bytes on the wire: what prepare builds, and the body. */
  function RequestText(q: OutgoingRequest): string {
    RequestHead(q.verb, q.url, RequestHeaders(q)) + q.body
  }

  /** An entry that can be sent without changing how the message is framed. */
  predicate LegalEntry(h: Header) {
    && h.name != "" && AllToken(h.name) && LegalValue(h.value)
    && !Classify(h.name).EncodingHeader? && !Classify(h.name).UpgradeHeader?
  }

  predicate LegalEntries(hs: seq<Header>) {
    Sorted(hs) && forall i | 0 <= i < |hs| :: LegalEntry(hs[i])
  }

  /** A request that is framed correctly on the wire. */
  predicate Framed(q: OutgoingRequest) {
    && KnownMethod(q.verb) && LegalUrl(q.url) && |q.url| <= MAX_URI_LENGTH
    && LegalEntries(q.headers) && LegalValue(q.host)
    && Get(q.headers, EXPECT_NAME) != ONE_HUNDRED_CONTINUE
    && |q.body| < 0x8000_0000
    && (q.verb.GET? ==> q.body == "" && !Has(q.headers, CONTENT_LENGTH_NAME))
    && |RequestHead(q.verb, q.url, RequestHeaders(q))| <= HTTP_MAX_HEADER_SIZE
  }

  predicate Sendable(q: OutgoingRequest) {
    Framed(q) && |q.body| <= MAX_UPLOAD_SIZE
  }

  /** What is printed of a request's headers: the host, the length unless it is a GET, and all others as they
      were. */
  lemma RequestHeadersAre(q: OutgoingRequest, name: string)
    requires Sorted(q.headers)
    ensures var hs := RequestHeaders(q);
      if Key(name) == "host" then Has(hs, name) && Get(hs, name) == q.host
      else if Key(name) == "content-length" && !q.verb.GET? then Has(hs, name) && Get(hs, name) == SizeText(|q.body|)
      else Get(hs, name) == Get(q.headers, name) && (Has(hs, name) <==> Has(q.headers, name))
  {
    hide Key, Put, Get, Sorted, SizeText, Has;
    LiteralKeys();
    var hs := Put(q.headers, HOST_NAME, q.host);
    PutSorted(q.headers, HOST_NAME, q.host);
    GetPut(q.headers, HOST_NAME, q.host, name);
    HasPut(q.headers, HOST_NAME, q.host, name);
    GetPut(hs, CONTENT_LENGTH_NAME, SizeText(|q.body|), name);
    HasPut(hs, CONTENT_LENGTH_NAME, SizeText(|q.body|), name);
  }

  lemma LiteralKeys()
    ensures Key(HOST_NAME) == "host" && Key(CONTENT_LENGTH_NAME) == "content-length" && Key(TRANSFER_ENCODING_NAME) == "transfer-encoding"
    ensures "host" != "content-length" && "content-length" != "transfer-encoding"
  {
    hide Key;
    KeyIs(HOST_NAME, "host");
    KeyIs(CONTENT_LENGTH_NAME, "content-length");
    KeyIs(TRANSFER_ENCODING_NAME, "transfer-encoding");
    assert |"host"| == 4 && |"content-length"| == 14 && |"transfer-encoding"| == 17;
  }

  /** Every entry that is printed of a request's headers: a name that was there keeps its spelling, and a new one
      has the usual one. */
  lemma RequestEntries(q: OutgoingRequest, h: Header)
    requires Sorted(q.headers)
    ensures h in RequestHeaders(q) <==>
              if Key(h.name) == "host" then h.value == q.host && SpelledAs(q.headers, "Host", h.name)
              else if Key(h.name) == "content-length" && !q.verb.GET?
              then h.value == SizeText(|q.body|) && SpelledAs(q.headers, "Content-Length", h.name)
              else h in q.headers
  {
    hide Key, Put, Sorted, SizeText, SpelledAs;
    LiteralKeys();
    PutSorted(q.headers, HOST_NAME, q.host);
    PutEntry(q.headers, HOST_NAME, q.host, h);
    PutEntry(Put(q.headers, HOST_NAME, q.host), CONTENT_LENGTH_NAME, SizeText(|q.body|), h);
    SpellingKept(q.headers, HOST_NAME, q.host, CONTENT_LENGTH_NAME, h.name);
  }

  /** The header lines, one after the other. */
  function HeaderText(hs: seq<Header>): string {
    Concat(seq(|hs|, i requires 0 <= i < |hs| => hs[i].name + ": " + hs[i].value + "\r\n"))
  }

  lemma {:induction false} LinesAre(hs: seq<Header>)
    ensures Lines(hs) == HeaderText(hs)
    decreases |hs|
  {
    if hs != [] {
      LinesAre(hs[1..]);
      var texts := seq(|hs|, i requires 0 <= i < |hs| => hs[i].name + ": " + hs[i].value + "\r\n");
      assert texts[1..] == seq(|hs[1..]|, i requires 0 <= i < |hs[1..]| => hs[1..][i].name + ": " + hs[1..][i].value + "\r\n");
      assert Crlf() == "\r\n";
    }
  }

  /** The text of a request, written out. */
  lemma RequestTextIs(q: OutgoingRequest)
    ensures RequestText(q)
         == MethodString(q.verb) + " " + q.url + " HTTP/1.1\r\n" + HeaderText(RequestHeaders(q)) + "\r\n" + q.body
  {
    hide Lines, HeaderText, MethodString, RequestHeaders;
    LinesAre(RequestHeaders(q));
    assert Crlf() == "\r\n";
    assert " HTTP/1.1" + "\r\n" == " HTTP/1.1\r\n";
    assert MethodString(q.verb) + " " + q.url + " HTTP/1.1" + "\r\n" == MethodString(q.verb) + " " + q.url + (" HTTP/1.1" + "\r\n");
  }

  lemma PutLegal(hs: seq<Header>, name: string, value: string)
    requires LegalEntries(hs) && name != "" && AllToken(name) && LegalValue(value)
    requires !Classify(name).EncodingHeader? && !Classify(name).UpgradeHeader?
    ensures LegalEntries(Put(hs, name, value))
  {
    hide Sorted, LegalValue, IsToken, Classify, Put;
    PutSorted(hs, name, value);
    var p := Put(hs, name, value);
    forall i | 0 <= i < |p| ensures LegalEntry(p[i]) {
      PutEntries(hs, name, value, i);
      if Key(p[i].name) == Key(name) && p[i].name != name {
        var j :| 0 <= j < |hs| && hs[j].name == p[i].name;
        assert LegalEntry(hs[j]);
      } else if Key(p[i].name) != Key(name) {
        var j :| 0 <= j < |hs| && hs[j] == p[i];
        assert LegalEntry(hs[j]);
      }
    }
  }

  lemma SizeTextLegal(n: nat)
    requires n < 0x8000_0000
    ensures IsLength(SizeText(n)) && LengthFrom(0, SizeText(n)) == Some(n) && LegalValue(SizeText(n))
    ensures AllNum(SizeText(n)) && DecValue(SizeText(n)) == n
  {
    hide Decimal, LengthFrom;
    SizeTextExact(n);
    NoBlanksSame(SizeText(n));
    LengthIsDecimal(SizeText(n));
  }

  /** Every Content-Length entry has the value `v`. */
  predicate LengthEntriesAre(hs: seq<Header>, v: string) {
    forall i | 0 <= i < |hs| && Key(hs[i].name) == Key(CONTENT_LENGTH_NAME) :: hs[i].value == v
  }

  /** Legal entries with one announced length are legal headers that announce it. */
  lemma LegalFromEntries(hs: seq<Header>, n: nat, t: Type, body: string)
    requires LegalEntries(hs) && n < 0x8000_0000 && LengthEntriesAre(hs, SizeText(n)) && n == |body|
    requires Has(hs, CONTENT_LENGTH_NAME) || (body == "" && t.Request?)
    ensures LegalHeaders(hs) && PlainHeaders(hs) && Announces(hs, t, body)
  {
    hide Sorted, LegalValue, IsToken, Classify, SizeText, DecValue, Key, BlockLength, IsLength, LengthFrom;
    var v := SizeText(n);
    SizeTextLegal(n);
    forall i | 0 <= i < |hs|
      ensures LegalHeader(hs[i]) && (Classify(hs[i].name).LengthHeader? ==> hs[i].value == v)
    {
      assert LegalEntry(hs[i]);
      ClassOfKey(hs[i].name);
    }
    AnnouncedLength(ULLONG_MAX, hs, v);
    if Has(hs, CONTENT_LENGTH_NAME) {
      var i :| 0 <= i < |hs| && Key(hs[i].name) == Key(CONTENT_LENGTH_NAME);
      ClassOfKey(hs[i].name);
      assert Classify(hs[i].name).LengthHeader?;
    } else if HasLength(hs) {
      var i :| 0 <= i < |hs| && Classify(hs[i].name).LengthHeader?;
      ClassOfKey(hs[i].name);
    }
  }

  lemma RequestHeadersLegal(q: OutgoingRequest)
    requires Framed(q)
    ensures LegalEntries(RequestHeaders(q)) && LengthEntriesAre(RequestHeaders(q), SizeText(|q.body|))
    ensures Has(RequestHeaders(q), CONTENT_LENGTH_NAME) || q.body == ""
    ensures Get(RequestHeaders(q), EXPECT_NAME) != ONE_HUNDRED_CONTINUE
  {
    hide LegalValue, AllToken, Classify, SizeText, Key, LegalUrl, RequestHead, Put, Get, Sorted, LegalEntry;
    TokenNames();
    ClassOfKey(HOST_NAME);
    ClassOfKey(CONTENT_LENGTH_NAME);
    PutLegal(q.headers, HOST_NAME, q.host);
    GetPut(q.headers, HOST_NAME, q.host, EXPECT_NAME);
    var hs := Put(q.headers, HOST_NAME, q.host);
    if q.verb.GET? {
      forall i | 0 <= i < |hs| ensures Key(hs[i].name) != Key(CONTENT_LENGTH_NAME) {
        PutEntries(q.headers, HOST_NAME, q.host, i);
        if Key(hs[i].name) != Key(HOST_NAME) {
          var j :| 0 <= j < |q.headers| && q.headers[j] == hs[i];
          assert Key(q.headers[j].name) != Key(CONTENT_LENGTH_NAME);
        }
      }
    } else {
      SizeTextLegal(|q.body|);
      var ps := Put(hs, CONTENT_LENGTH_NAME, SizeText(|q.body|));
      PutLegal(hs, CONTENT_LENGTH_NAME, SizeText(|q.body|));
      PutHas(hs, CONTENT_LENGTH_NAME, SizeText(|q.body|));
      GetPut(hs, CONTENT_LENGTH_NAME, SizeText(|q.body|), EXPECT_NAME);
      forall i | 0 <= i < |ps| && Key(ps[i].name) == Key(CONTENT_LENGTH_NAME) ensures ps[i].value == SizeText(|q.body|) {
        PutEntries(hs, CONTENT_LENGTH_NAME, SizeText(|q.body|), i);
      }
    }
  }

  lemma BearableEntries(hs: seq<Header>, n: nat)
    requires Sorted(hs) && LengthEntriesAre(hs, SizeText(n)) && n <= MAX_UPLOAD_SIZE
    requires Get(hs, EXPECT_NAME) != ONE_HUNDRED_CONTINUE
    ensures Bearable(hs)
  {
    hide Sorted, Key, SizeText, Atol, DecValue, Get;
    SizeTextLegal(n);
    AtolDigits(SizeText(n));
    forall i | 0 <= i < |hs| && Key(hs[i].name) == Key(EXPECT_NAME) ensures hs[i].value != ONE_HUNDRED_CONTINUE {
      EntryIsGet(hs, i);
      GetByKey(hs, hs[i].name, EXPECT_NAME);
    }
  }

  lemma FramedIsLegal(q: OutgoingRequest)
    requires Framed(q)
    ensures LegalRequest(q.verb, q.url, RequestHeaders(q), q.body) && Sorted(RequestHeaders(q))
  {
    hide LegalUrl, RequestHead, RequestHeaders, LegalHeaders, PlainHeaders, Announces, SizeText, LegalEntry, Sorted;
    RequestHeadersLegal(q);
    LegalFromEntries(RequestHeaders(q), |q.body|, Request, q.body);
  }

  /** A sendable request is a legal one within the limits. */
  lemma SendableIsLegal(q: OutgoingRequest)
    requires Sendable(q)
    ensures LegalRequest(q.verb, q.url, RequestHeaders(q), q.body) && WithinLimits(q.url, RequestHeaders(q))
    ensures PutAll([], RequestHeaders(q)) == RequestHeaders(q) && KnownMethod(q.verb)
  {
    hide LegalUrl, RequestHead, RequestHeaders, LegalHeaders, PlainHeaders, Announces, SizeText, LegalEntry, Bearable, Sorted, PutAll;
    FramedIsLegal(q);
    RequestHeadersLegal(q);
    BearableEntries(RequestHeaders(q), |q.body|);
    PutAllSorted(RequestHeaders(q));
  }

  /** Request round trip.  The printed request is read to its end by a parser at the start of a message;
      however its callbacks are cut, verb, URL, headers, body and query string arrive unchanged, with
      no error and one completion. */
  lemma RequestRoundTrip(resets: Policy, q: OutgoingRequest, status: nat, m: Machine) returns (m': Machine)
    requires Sendable(q)
    requires m.f.state.StartReq? && m.f.typ.Request? && m.f.nread == 0 && !EndsWith(m.log, OnUrl) && m.f.statusCode == status
    ensures Reads(resets, m, RequestText(q), m')
    ensures LegalHeaders(RequestHeaders(q))
    ensures m'.log == m.log + RequestEvents(q.verb, q.url, RequestHeaders(q), q.body, status)
    ensures resets(m'.log) ==> m'.f == Init(Request)
    ensures forall trace: seq<Event> :: Join(trace) == RequestEvents(q.verb, q.url, RequestHeaders(q), q.body, status) ==>
      OnAll(Fresh(Request, []), trace) == Arrived(q.verb, q.url, RequestHeaders(q), q.body)
  {
    hide Sendable, RequestHeaders, LegalUrl, RequestEvents, Join, OnAll, LegalHeaders, PlainHeaders, Announces, RequestHead, Reads, WithinLimits, Arrived, PutAll;
    SendableIsLegal(q);
    m' := RequestRead(resets, m, q.verb, q.url, RequestHeaders(q), q.body);
    forall trace: seq<Event> | Join(trace) == RequestEvents(q.verb, q.url, RequestHeaders(q), q.body, status)
      ensures OnAll(Fresh(Request, []), trace) == Arrived(q.verb, q.url, RequestHeaders(q), q.body)
    {
      RequestArrives(q.verb, q.url, RequestHeaders(q), q.body, status, trace);
    }
  }

  /** The limit on uploads for a printed request: it arrives with no error and its whole body if and only
      if the body is at most MAX_UPLOAD_SIZE bytes; otherwise none of the body is kept. */
  lemma PrintedUpload(q: OutgoingRequest, status: nat, trace: seq<Event>)
    requires Framed(q) && LegalHeaders(RequestHeaders(q))
    requires Join(trace) == RequestEvents(q.verb, q.url, RequestHeaders(q), q.body, status)
    ensures var r := OnAll(Fresh(Request, []), trace);
      && (r.error.PARSE_OK? <==> |q.body| <= MAX_UPLOAD_SIZE)
      && r.msg.body == (if |q.body| <= MAX_UPLOAD_SIZE then q.body else "")
      && (|q.body| > MAX_UPLOAD_SIZE ==> r.error.PARSE_BODY_TOO_LARGE?)
  {
    hide Framed, RequestHeaders, LegalUrl, Join, OnAll, LegalHeaders, RequestEvents, WithinLimits, PlainHeaders, Announces, RequestHead,
         PutAll, TooLarge, Sorted;
    FramedFacts(q);
    if |q.body| <= MAX_UPLOAD_SIZE {
      SendableIsLegal(q);
      RequestArrives(q.verb, q.url, RequestHeaders(q), q.body, status, trace);
    } else {
      FramedIsLegal(q);
      LargeHeaders(q);
      PutAllSorted(RequestHeaders(q));
      RequestRefused(q.verb, q.url, RequestHeaders(q), q.body, status, trace);
    }
  }

  lemma FramedFacts(q: OutgoingRequest)
    requires Framed(q)
    ensures KnownMethod(q.verb) && |q.url| <= MAX_URI_LENGTH && (|q.body| <= MAX_UPLOAD_SIZE ==> Sendable(q))
  {
  }

  lemma LargeHeaders(q: OutgoingRequest)
    requires Framed(q) && |q.body| > MAX_UPLOAD_SIZE
    ensures TooLarge(RequestHeaders(q))
  {
    hide LegalUrl, RequestHead, RequestHeaders, SizeText, LegalEntry, Sorted, Key, Get, Atol, DecValue;
    RequestHeadersLegal(q);
    var hs := RequestHeaders(q);
    var i :| 0 <= i < |hs| && Key(hs[i].name) == Key(CONTENT_LENGTH_NAME);
    EntryIsGet(hs, i);
    GetByKey(hs, hs[i].name, CONTENT_LENGTH_NAME);
    SizeTextLegal(|q.body|);
    AtolDigits(SizeText(|q.body|));
  }

  // ---------- Replies ----------

  datatype OutgoingReply = OutgoingReply(major: nat, minor: nat, code: nat, phrase: string, headers: seq<Header>, body: string)

  /** The headers that prepare leaves in the map. */
  function ReplyHeaders(p: OutgoingReply): seq<Header> {
    var hs := if Get(p.headers, TRANSFER_ENCODING_NAME) == "chunked" then Delete(p.headers, TRANSFER_ENCODING_NAME) else p.headers;
    Put(hs, CONTENT_LENGTH_NAME, SizeText(|p.body|))
  }

  function ReplyText(p: OutgoingReply): string {
    ResponseHead(p.major, p.minor, p.code, p.phrase, ReplyHeaders(p)) + p.body
  }

  /** What is printed of a reply's headers: its length, no "chunked", and all others as they were. */
  lemma ReplyHeadersAre(p: OutgoingReply, name: string)
    requires Sorted(p.headers)
    ensures var hs := ReplyHeaders(p);
      if Key(name) == "content-length" then Has(hs, name) && Get(hs, name) == SizeText(|p.body|)
      else if Key(name) == "transfer-encoding" && Get(p.headers, name) == "chunked" then !Has(hs, name) && Get(hs, name) == ""
      else Get(hs, name) == Get(p.headers, name) && (Has(hs, name) <==> Has(p.headers, name))
  {
    hide Key, Put, Get, Sorted, SizeText, Has, Delete;
    LiteralKeys();
    if Key(name) == "transfer-encoding" {
      GetByKey(p.headers, name, TRANSFER_ENCODING_NAME);
    }
    GetDelete(p.headers, TRANSFER_ENCODING_NAME, name);
    DeleteSorted(p.headers, TRANSFER_ENCODING_NAME);
    var hs := if Get(p.headers, TRANSFER_ENCODING_NAME) == "chunked" then Delete(p.headers, TRANSFER_ENCODING_NAME) else p.headers;
    GetPut(hs, CONTENT_LENGTH_NAME, SizeText(|p.body|), name);
    HasPut(hs, CONTENT_LENGTH_NAME, SizeText(|p.body|), name);
  }

  /** Every entry that is printed of a reply's headers. */
  lemma ReplyEntries(p: OutgoingReply, h: Header)
    requires Sorted(p.headers)
    ensures h in ReplyHeaders(p) <==>
              if Key(h.name) == "content-length" then h.value == SizeText(|p.body|) && SpelledAs(p.headers, "Content-Length", h.name)
              else if Key(h.name) == "transfer-encoding" then h in p.headers && Get(p.headers, "Transfer-Encoding") != "chunked"
              else h in p.headers
  {
    hide Key, Put, Get, Sorted, SizeText, SpelledAs, Delete;
    LiteralKeys();
    DeleteSorted(p.headers, TRANSFER_ENCODING_NAME);
    var hs := if Get(p.headers, TRANSFER_ENCODING_NAME) == "chunked" then Delete(p.headers, TRANSFER_ENCODING_NAME) else p.headers;
    PutEntry(hs, CONTENT_LENGTH_NAME, SizeText(|p.body|), h);
    DeleteEntry(p.headers, TRANSFER_ENCODING_NAME, h);
    SpellingLeft(p.headers, TRANSFER_ENCODING_NAME, CONTENT_LENGTH_NAME, h.name);
  }

  /** The status line, written out. */
  function FirstLine(major: nat, minor: nat, code: nat, phrase: string): string {
    "HTTP/" + Decimal(major) + "." + Decimal(minor) + " " + Decimal(code) + " " + phrase + "\r\n"
  }

  /** The text of a reply, written out. */
  lemma ReplyTextIs(p: OutgoingReply)
    ensures ReplyText(p) == FirstLine(p.major, p.minor, p.code, p.phrase) + HeaderText(ReplyHeaders(p)) + "\r\n" + p.body
  {
    hide Lines, HeaderText, Decimal, ReplyHeaders;
    LinesAre(ReplyHeaders(p));
    assert Crlf() == "\r\n";
  }

  /** An entry of a reply: "chunked" is allowed, because prepare removes it. */
  predicate ReplyEntry(h: Header) {
    && h.name != "" && AllToken(h.name) && LegalValue(h.value) && !Classify(h.name).UpgradeHeader?
    && (Classify(h.name).EncodingHeader? ==> h.value == "chunked")
  }

  predicate Replyable(p: OutgoingReply) {
    && p.major <= 999 && p.minor <= 999 && p.code <= 999 && LegalPhrase(p.phrase)
    && Sorted(p.headers) && (forall i | 0 <= i < |p.headers| :: ReplyEntry(p.headers[i]))
    && |p.body| < 0x8000_0000
    && |ResponseHead(p.major, p.minor, p.code, p.phrase, ReplyHeaders(p))| <= HTTP_MAX_HEADER_SIZE
  }

  lemma {:induction false} DeleteEntries(hs: seq<Header>, name: string, i: nat)
    requires Sorted(hs) && i < |Delete(hs, name)|
    ensures Delete(hs, name)[i] in hs && Key(Delete(hs, name)[i].name) != Key(name)
    decreases |hs|
  {
    hide Key, Before, Sorted;
    var h, rest := hs[0], hs[1..];
    assert hs == [h] + rest;
    SortedCons(h, rest);
    if Key(h.name) == Key(name) {
      assert Before(Key(h.name), Key(rest[i].name));
      BeforeIrreflexive(Key(name));
    } else if i > 0 {
      DeleteEntries(rest, name, i - 1);
    }
  }

  /** Once prepare has removed "chunked", only legal entries are left. */
  lemma WithoutChunked(p: OutgoingReply)
    requires Replyable(p)
    ensures var hs := if Get(p.headers, TRANSFER_ENCODING_NAME) == "chunked" then Delete(p.headers, TRANSFER_ENCODING_NAME) else p.headers;
      LegalEntries(hs)
  {
    hide ResponseHead, LegalPhrase, LegalValue, AllToken, Classify, Key, Sorted, Get, Delete;
    var del := Get(p.headers, TRANSFER_ENCODING_NAME) == "chunked";
    var hs := if del then Delete(p.headers, TRANSFER_ENCODING_NAME) else p.headers;
    DeleteSorted(p.headers, TRANSFER_ENCODING_NAME);
    forall i | 0 <= i < |hs| ensures LegalEntry(hs[i]) {
      if del {
        DeleteEntries(p.headers, TRANSFER_ENCODING_NAME, i);
      }
      var j :| 0 <= j < |p.headers| && p.headers[j] == hs[i];
      assert ReplyEntry(p.headers[j]);
      ClassOfKey(hs[i].name);
      if !del && Classify(hs[i].name).EncodingHeader? {
        EntryIsGet(p.headers, j);
        GetByKey(p.headers, hs[i].name, TRANSFER_ENCODING_NAME);
      }
    }
  }

  lemma ReplyableIsLegal(p: OutgoingReply)
    requires Replyable(p)
    ensures LegalResponse(p.major, p.minor, p.code, p.phrase, ReplyHeaders(p), p.body) && Sorted(ReplyHeaders(p))
  {
    hide ResponseHead, LegalPhrase, LegalValue, AllToken, Classify, Key, Sorted, Get, Delete, LegalEntry, Put, SizeText, LegalHeaders, PlainHeaders, Announces;
    WithoutChunked(p);
    var hs := if Get(p.headers, TRANSFER_ENCODING_NAME) == "chunked" then Delete(p.headers, TRANSFER_ENCODING_NAME) else p.headers;
    TokenNames();
    ClassOfKey(CONTENT_LENGTH_NAME);
    SizeTextLegal(|p.body|);
    PutLegal(hs, CONTENT_LENGTH_NAME, SizeText(|p.body|));
    PutHas(hs, CONTENT_LENGTH_NAME, SizeText(|p.body|));
    var ps := Put(hs, CONTENT_LENGTH_NAME, SizeText(|p.body|));
    forall i | 0 <= i < |ps| && Key(ps[i].name) == Key(CONTENT_LENGTH_NAME) ensures ps[i].value == SizeText(|p.body|) {
      PutEntries(hs, CONTENT_LENGTH_NAME, SizeText(|p.body|), i);
    }
    LegalFromEntries(ps, |p.body|, Response, p.body);
  }

  /** Reply round trip.  The printed reply is read to its end by a fresh response parser; however its
      callbacks are cut, code, version, headers and body arrive, with one completion.  The headers are
      put over those that the receiving reply started with. */
  lemma ReplyRoundTrip(resets: Policy, p: OutgoingReply, h0: seq<Header>) returns (m': Machine)
    requires Replyable(p)
    ensures Reads(resets, Machine(Init(Response), []), ReplyText(p), m')
    ensures LegalHeaders(ReplyHeaders(p))
    ensures m'.log == TailEvents(ReplyHeaders(p), p.body, Snapshot(DELETE, p.code, p.major, p.minor))
    ensures forall trace: seq<Event> :: Join(trace) == m'.log ==>
      OnAll(Fresh(Response, h0), trace)
      == Received(Response, PARSE_OK, "", "", false, Message(PutAll(h0, ReplyHeaders(p)), p.body, GET, "", map[], p.code))
  {
    hide Replyable, ReplyHeaders, Join, OnAll, LegalHeaders, PlainHeaders, Announces, ResponseHead, Reads, LegalPhrase, FramingFor,
         HeaderEvents, PutAll;
    ReplyableIsLegal(p);
    m' := ResponseRead(resets, Machine(Init(Response), []), p.major, p.minor, p.code, p.phrase, ReplyHeaders(p), p.body);
    var hs, snap := ReplyHeaders(p), Snapshot(DELETE, p.code, p.major, p.minor);
    assert m'.log == TailEvents(hs, p.body, snap);
    forall trace: seq<Event> | Join(trace) == m'.log
      ensures OnAll(Fresh(Response, h0), trace)
           == Received(Response, PARSE_OK, "", "", false, Message(PutAll(h0, hs), p.body, GET, "", map[], p.code))
    {
      ReplyOn(h0, hs, FramingFor(hs), p.body, snap, trace);
    }
  }

  /** Whatever headers the receiving reply started with, every header that was sent has the value sent. */
  lemma SentHeadersArrive(h0: seq<Header>, hs: seq<Header>, name: string)
    requires Sorted(h0) && Sorted(hs) && Has(hs, name)
    ensures Get(PutAll(h0, hs), name) == Get(hs, name)
  {
    hide Sorted, Put, Get, Key;
    LastWins(h0, hs, name);
    assert Sorted([]) by { EmptySorted(); }
    LastWins([], hs, name);
    PutAllSorted(hs);
    LastValueHas(Get(h0, name), Get([], name), hs, name);
  }

  lemma {:induction false} LastValueHas(a: string, b: string, hs: seq<Header>, name: string)
    requires Has(hs, name)
    ensures LastValue(a, hs, name) == LastValue(b, hs, name)
    decreases |hs|
  {
    hide Key;
    if Key(hs[|hs| - 1].name) != Key(name) {
      var i :| 0 <= i < |hs| && Key(hs[i].name) == Key(name);
      assert Key(hs[..|hs| - 1][i].name) == Key(name);
      LastValueHas(a, b, hs[..|hs| - 1], name);
    }
  }

  /** The conditions of the round trips can be met: by a plain GET and a plain reply, */
  lemma PlainMessages()
    ensures Sendable(OutgoingRequest(GET, "/", "h", [], ""))
    ensures Replyable(OutgoingReply(1, 1, 200, "OK", [], ""))
  {
  }

  lemma {:induction false} PutLength(hs: seq<Header>, name: string, value: string)
    ensures |Lines(Put(hs, name, value))| <= |Lines(hs)| + |name| + |value| + 4
    decreases |hs|
  {
    hide Key, Before;
    LineParts(Header(name, value));
    assert [Header(name, value)][1..] == [] && Lines([]) == "";
    if hs != [] {
      LineParts(hs[0]);
      LineParts(Header(hs[0].name, value));
      PutLength(hs[1..], name, value);
      assert ([Header(name, value)] + hs)[1..] == hs;
      assert ([hs[0]] + Put(hs[1..], name, value))[1..] == Put(hs[1..], name, value);
      assert ([Header(hs[0].name, value)] + hs[1..])[1..] == hs[1..];
    }
  }

  /** and by a POST with a body. */
  lemma PlainUpload()
    ensures Sendable(OutgoingRequest(POST, "/", "h", [], "hello"))
  {
    hide Key, Before, Put, SizeText;
    var hs := Put([], HOST_NAME, "h");
    PutLength([], HOST_NAME, "h");
    SizeTextOfFive();
    PutLength(hs, CONTENT_LENGTH_NAME, SizeText(5));
  }

  lemma SizeTextOfFive()
    ensures |SizeText(5)| <= 20
  {
    hide Decimal;
    assert AsInt32(5) == 5 && SizeText(5) == Decimal(5);
    OneDigit(5);
  }

  lemma OneDigit(n: nat)
    requires n < 10
    ensures |Decimal(n)| == 1
  {
  }

  /** and for each of the five methods there is a request that can be sent. */
  lemma FiveMethods(v: Method)
    requires v == GET || v == POST || v == PUT || v == HEAD || v == DELETE
    ensures Sendable(OutgoingRequest(v, "/", "h", [], ""))
  {
    hide Key, Before, Put, SizeText;
    var hs := Put([], HOST_NAME, "h");
    PutLength([], HOST_NAME, "h");
    SizeTextOfNone();
    PutLength(hs, CONTENT_LENGTH_NAME, SizeText(0));
    FiveNames();
  }

  lemma SizeTextOfNone()
    ensures |SizeText(0)| <= 20
  {
    hide Decimal;
    assert AsInt32(0) == 0 && SizeText(0) == Decimal(0);
    OneDigit(0);
  }

  /** The names that are printed of them. */
  lemma FiveNames()
    ensures MethodString(GET) == "GET" && MethodString(POST) == "POST" && MethodString(PUT) == "PUT"
    ensures MethodString(HEAD) == "HEAD" && MethodString(DELETE) == "DELETE"
  {
  }

  /** A number is printed without leading zeros, so that its text is the only one for it. */
  lemma {:induction false} NoLeadingZero(n: nat)
    ensures |Decimal(n)| > 1 ==> Decimal(n)[0] != '0'
    ensures n == 0 ==> Decimal(n) == "0"
    decreases n
  {
    if n >= 10 {
      NoLeadingZero(n / 10);
      if n / 10 < 10 {
        assert Decimal(n / 10) == [(n / 10 + '0' as int) as char];
      }
    }
  }
}
