/** One run of the `switch` of http_parser_execute: the new fields, the MARK and CALLBACK macros
    that ran, and how control left the switch.  Body states are given for a single byte here;
    `HttpParser.Execute` reads them in bulk as the source does. */
module Dispatch {
  import opened Bytes
  import opened HttpTypes

  /** How a case ends: `break`, `goto reexecute_byte`, `goto error`, the early return of an
      upgraded connection, or a failed assert or a read past the end of a method name. */
  datatype Exit = Break | Reexecute | Error | Return | Abort

  datatype Notice = Silent | NotifyHeadersComplete | NotifyMessageComplete

  datatype Action = Action(f: Fields, mark: Option<Kind>, flush: Option<Kind>, notice: Notice, exit: Exit)

  // ---------- Groups of states ----------

  predicate ResponseStartState(s: State) {
    s.StartRes? || s.ResH? || s.ResHT? || s.ResHTT? || s.ResHTTP?
  }

  predicate ResponseVersionState(s: State) {
    s.ResFirstHttpMajor? || s.ResHttpMajor? || s.ResFirstHttpMinor? || s.ResHttpMinor?
  }

  predicate StatusLineState(s: State) {
    s.ResFirstStatusCode? || s.ResStatusCode? || s.ResStatus? || s.ResLineAlmostDone?
  }

  predicate ReadsUrl(s: State) {
    s.ReqSchema? || s.ReqSchemaSlash? || s.ReqSchemaSlashSlash?
    || s.ReqServerStart? || s.ReqServer? || s.ReqServerWithAt? || s.ReqPath?
    || s.ReqQueryStringStart? || s.ReqQueryString? || s.ReqFragmentStart? || s.ReqFragment?
  }

  predicate RequestHttpState(s: State) {
    s.ReqHttpStart? || s.ReqHttpH? || s.ReqHttpHT? || s.ReqHttpHTT? || s.ReqHttpHTTP?
  }

  predicate RequestVersionState(s: State) {
    s.ReqFirstHttpMajor? || s.ReqHttpMajor? || s.ReqFirstHttpMinor? || s.ReqHttpMinor?
    || s.ReqLineAlmostDone?
  }

  predicate HeaderEndState(s: State) {
    s.HeaderAlmostDone? || s.HeaderValueLws? || s.HeadersAlmostDone?
  }

  predicate ChunkSizeState(s: State) {
    s.ChunkSizeStart? || s.ChunkSize? || s.ChunkParameters? || s.ChunkSizeAlmostDone?
  }

  predicate ChunkEndState(s: State) {
    s.ChunkDataAlmostDone? || s.ChunkDataDone?
  }

  predicate ReadsBody(s: State) {
    s.BodyIdentity? || s.ChunkData? || s.BodyIdentityEof?
  }

  predicate MessageStart(s: State) {
    s.StartReq? || s.StartRes? || s.Dead?
  }

  // ---------- What every case keeps ----------

  /** The data kind whose bytes a state reads, if a mark is kept for it across bytes. */
  function KindOf(s: State): Option<Kind> {
    if s.HeaderField? then Some(OnHeaderField)
    else if s.HeaderValue? then Some(OnHeaderValue)
    else if ReadsUrl(s) then Some(OnUrl)
    else None
  }

  /** No mark can be set in the state. */
  predicate Unmarked(s: State) {
    KindOf(s).None? && !ReadsBody(s) && !s.ChunkDataAlmostDone?
  }

  /** How often a byte can still be dispatched again. */
  function Rank(s: State): nat {
    if s.HeaderValueLws? then 3
    else if s.HeaderFieldStart? then 2
    else if s.HeadersAlmostDone? || s.HeaderValue? || s.BodyIdentity? then 1
    else 0
  }

  /** A byte is dispatched again only while states remain that pass it on; a mark is set where the
      state begins to read data of its kind, and the data is flushed where the state stops reading
      it; errors and only errors set errno. */
  predicate Shape(f: Fields, a: Action) {
    && a.f.typ == f.typ
    && (a.exit.Reexecute? ==> Rank(a.f.state) < Rank(f.state) && a.mark.None? && Unmarked(a.f.state))
    && (if a.exit.Error? then a.f.errno != HPE_OK else a.f.errno == f.errno)
    && (a.notice.NotifyHeadersComplete? ==> a.exit.Reexecute?)
    && (a.notice.NotifyMessageComplete? ==> MessageStart(a.f.state) && (a.exit.Break? || a.exit.Return?))
    && (a.exit.Return? ==> a.notice.NotifyMessageComplete?)
    && (!a.notice.Silent? ==> a.mark.None? && a.flush.None?)
    && (a.exit.Error? || a.exit.Abort? || MarkShape(f.state, a))
  }

  predicate MarkShape(s: State, a: Action) {
    if a.mark.Some? && a.flush.Some? then
      a.flush == a.mark && Unmarked(s) && Unmarked(a.f.state)
    else if a.mark.Some? then
      Unmarked(s) && KindOf(a.f.state) == a.mark && a.exit.Break?
    else if a.flush.Some? then
      && (if s.ChunkDataAlmostDone? then a.flush == Some(OnBody) else a.flush == KindOf(s))
      && Unmarked(a.f.state)
    else
      && !s.ChunkDataAlmostDone?
      && KindOf(a.f.state) == KindOf(s)
      && (a.f.state.ChunkDataAlmostDone? ==> s.ChunkData?)
      && (KindOf(s).Some? ==> a.exit.Break? && a.notice.Silent?)
  }

  // ---------- The macros ----------

  function To(f: Fields, s: State): Fields {
    f.(state := s)
  }

  function Go(f: Fields): Action {
    Action(f, None, None, Silent, Break)
  }

  function Again(f: Fields): Action {
    Action(f, None, None, Silent, Reexecute)
  }

  function Fail(f: Fields, e: Errno): Action {
    Action(f.(errno := e), None, None, Silent, Error)
  }

  function Broken(f: Fields): Action {
    Action(f, None, None, Silent, Abort)
  }

  function Mark(f: Fields, k: Kind): Action {
    Action(f, Some(k), None, Silent, Break)
  }

  function Flush(f: Fields, k: Kind): Action {
    Action(f, None, Some(k), Silent, Break)
  }

  function Complete(f: Fields): Action {
    Action(f, None, None, NotifyMessageComplete, Break)
  }

  /** STRICT_CHECK(ch != want) followed by a plain state change. */
  function Expect(f: Fields, ch: char, want: char, s: State): Action {
    if ch != want then Fail(f, HPE_STRICT) else Go(To(f, s))
  }

  function MessageNeedsEof(f: Fields): bool {
    if f.typ.Request? then false
    else if f.statusCode / 100 == 1 || f.statusCode == 204 || f.statusCode == 304 || f.flags.skipBody then false
    else !(f.flags.chunked || f.contentLength != ULLONG_MAX)
  }

  function ShouldKeepAlive(f: Fields): bool {
    if f.httpMajor > 0 && f.httpMinor > 0 then
      !f.flags.close && !MessageNeedsEof(f)
    else
      f.flags.keepAlive && !MessageNeedsEof(f)
  }

  /** NEW_MESSAGE() in the strict build. */
  function NewMessage(f: Fields): (s: State)
    ensures s.StartReq? || s.StartRes? || s.Dead?
  {
    if ShouldKeepAlive(f) then (if f.typ.Request? then StartReq else StartRes) else Dead
  }

  // ---------- The cases ----------

  function SwitchDead(f: Fields, ch: char): (a: Action)
    requires f.state.Dead?
    ensures Shape(f, a)
  {
    if ch == CR || ch == LF then Go(f) else Fail(f, HPE_CLOSED_CONNECTION)
  }

  function SwitchResponseStart(f: Fields, ch: char): (a: Action)
    requires ResponseStartState(f.state)
    ensures Shape(f, a)
  {
    if f.state.StartRes? then
      var g := f.(flags := NO_FLAGS, contentLength := ULLONG_MAX);
      if ch == 'H' then Go(To(g, ResH))
      else if ch == CR || ch == LF then Go(g)
      else Fail(g, HPE_INVALID_CONSTANT)
    else if f.state.ResH? then Expect(f, ch, 'T', ResHT)
    else if f.state.ResHT? then Expect(f, ch, 'T', ResHTT)
    else if f.state.ResHTT? then Expect(f, ch, 'P', ResHTTP)
    else Expect(f, ch, '/', ResFirstHttpMajor) // ResHTTP
  }

  function SwitchResponseVersion(f: Fields, ch: char): (a: Action)
    requires ResponseVersionState(f.state)
    ensures Shape(f, a)
  {
    if f.state.ResHttpMajor? && ch == '.' then Go(To(f, ResFirstHttpMinor))
    else if f.state.ResHttpMinor? && ch == ' ' then Go(To(f, ResFirstStatusCode))
    else if !IsNum(ch) then Fail(f, HPE_INVALID_VERSION)
    else if f.state.ResFirstHttpMajor? then Go(f.(httpMajor := Digit(ch), state := ResHttpMajor))
    else if f.state.ResFirstHttpMinor? then Go(f.(httpMinor := Digit(ch), state := ResHttpMinor))
    else if f.state.ResHttpMajor? then
      var g := f.(httpMajor := 10 * f.httpMajor + Digit(ch));
      if g.httpMajor > 999 then Fail(g, HPE_INVALID_VERSION) else Go(g)
    else // ResHttpMinor
      var g := f.(httpMinor := 10 * f.httpMinor + Digit(ch));
      if g.httpMinor > 999 then Fail(g, HPE_INVALID_VERSION) else Go(g)
  }

  function SwitchStatusLine(f: Fields, ch: char): (a: Action)
    requires StatusLineState(f.state)
    ensures Shape(f, a)
  {
    if f.state.ResFirstStatusCode? then
      if IsNum(ch) then Go(f.(statusCode := Digit(ch), state := ResStatusCode))
      else if ch == ' ' then Go(f)
      else Fail(f, HPE_INVALID_STATUS)
    else if f.state.ResLineAlmostDone? then Expect(f, ch, LF, HeaderFieldStart)
    else if ch == CR then Go(To(f, ResLineAlmostDone))
    else if ch == LF then Go(To(f, HeaderFieldStart))
    else if f.state.ResStatus? then Go(f)
    else // ResStatusCode
      if IsNum(ch) then
        var g := f.(statusCode := 10 * f.statusCode + Digit(ch));
        if g.statusCode > 999 then Fail(g, HPE_INVALID_STATUS) else Go(g)
      else if ch == ' ' then Go(To(f, ResStatus))
      else Fail(f, HPE_INVALID_STATUS)
  }

  /** The method that a first letter starts with. */
  function FirstMethod(ch: char): Option<Method> {
    match ch
    case 'C' => Some(CONNECT)
    case 'D' => Some(DELETE)
    case 'G' => Some(GET)
    case 'H' => Some(HEAD)
    case 'L' => Some(LOCK)
    case 'M' => Some(MKCOL)
    case 'N' => Some(NOTIFY)
    case 'O' => Some(OPTIONS)
    case 'P' => Some(POST)
    case 'R' => Some(REPORT)
    case 'S' => Some(SUBSCRIBE)
    case 'T' => Some(TRACE)
    case 'U' => Some(UNLOCK)
    case _ => None
  }

  function SwitchStartReq(f: Fields, ch: char): (a: Action)
    requires f.state.StartReq?
    ensures Shape(f, a)
  {
    if ch == CR || ch == LF then Go(f)
    else
      var g := f.(flags := NO_FLAGS, contentLength := ULLONG_MAX);
      if !IsAlpha(ch) then Fail(g, HPE_INVALID_METHOD)
      else if FirstMethod(ch).None? then Fail(g.(verb := DELETE, index := 1), HPE_INVALID_METHOD)
      else Go(g.(verb := FirstMethod(ch).value, index := 1, state := ReqMethod))
  }

  /** The method that a byte leads to which the current name does not continue with: a changed
      name, or the same name where index 2 lets any byte pass. */
  function OtherMethod(m: Method, index: nat, ch: char): Option<Method> {
    if m.CONNECT? then
      if index == 1 && ch == 'H' then Some(CHECKOUT)
      else if index == 2 && ch == 'P' then Some(COPY)
      else None
    else if m.MKCOL? then
      if index == 1 && ch == 'O' then Some(MOVE)
      else if index == 1 && ch == 'E' then Some(MERGE)
      else if index == 1 && ch == '-' then Some(MSEARCH)
      else if index == 2 && ch == 'A' then Some(MKACTIVITY)
      else None
    else if m.SUBSCRIBE? then
      if index == 1 && ch == 'E' then Some(SEARCH) else None
    else if index == 1 && m.POST? then
      if ch == 'R' then Some(PROPFIND)
      else if ch == 'U' then Some(PUT)
      else if ch == 'A' then Some(PATCH)
      else None
    else if index == 2 then
      if m.PUT? && ch == 'R' then Some(PURGE)
      else if m.UNLOCK? && ch == 'S' then Some(UNSUBSCRIBE)
      else Some(m)
    else if index == 4 && m.PROPFIND? && ch == 'P' then Some(PROPPATCH)
    else None
  }

  /** The branches that `goto error` without an error number get HPE_UNKNOWN there. */
  function MethodError(m: Method, index: nat): Errno {
    if m.CONNECT? || m.MKCOL? || m.SUBSCRIBE? || (index == 1 && m.POST?) then HPE_UNKNOWN else HPE_INVALID_METHOD
  }

  /** matcher[index]; the terminating NUL of the C string is at its length. */
  function Matcher(f: Fields): char {
    if f.index < |MethodString(f.verb)| then MethodString(f.verb)[f.index] else '\0'
  }

  function SwitchMethod(f: Fields, ch: char): (a: Action)
    requires f.state.ReqMethod?
    ensures Shape(f, a)
  {
    var next := f.(index := f.index + 1);
    if ch == '\0' then Fail(f, HPE_INVALID_METHOD)
    else if f.index > |MethodString(f.verb)| then Broken(f)
    else if ch == ' ' && Matcher(f) == '\0' then Go(To(next, ReqSpacesBeforeUrl))
    else if ch == Matcher(f) then Go(next)
    else if OtherMethod(f.verb, f.index, ch).None? then Fail(f, MethodError(f.verb, f.index))
    else Go(next.(verb := OtherMethod(f.verb, f.index, ch).value))
  }

  /** parse_url_char */
  function ParseUrlChar(s: State, ch: char): (r: State)
    ensures r.Dead? || ReadsUrl(r)
  {
    if ch == ' ' || ch == CR || ch == LF || ch == '\t' || ch as int == 12 then Dead
    else if s.ReqSpacesBeforeUrl? then
      if ch == '/' || ch == '*' then ReqPath
      else if IsAlpha(ch) then ReqSchema
      else Dead
    else if s.ReqSchema? then
      if IsAlpha(ch) then ReqSchema
      else if ch == ':' then ReqSchemaSlash
      else Dead
    else if s.ReqSchemaSlash? then
      if ch == '/' then ReqSchemaSlashSlash else Dead
    else if s.ReqSchemaSlashSlash? then
      if ch == '/' then ReqServerStart else Dead
    else if s.ReqServerWithAt? || s.ReqServerStart? || s.ReqServer? then
      if s.ReqServerWithAt? && ch == '@' then Dead
      else if ch == '/' then ReqPath
      else if ch == '?' then ReqQueryStringStart
      else if ch == '@' then ReqServerWithAt
      else if IsUserinfoChar(ch) || ch == '[' || ch == ']' then ReqServer
      else Dead
    else if s.ReqPath? then
      if IsUrlChar(ch) then ReqPath
      else if ch == '?' then ReqQueryStringStart
      else if ch == '#' then ReqFragmentStart
      else Dead
    else if s.ReqQueryStringStart? || s.ReqQueryString? then
      if IsUrlChar(ch) || ch == '?' then ReqQueryString
      else if ch == '#' then ReqFragmentStart
      else Dead
    else if s.ReqFragmentStart? then
      if IsUrlChar(ch) || ch == '?' then ReqFragment
      else if ch == '#' then ReqFragmentStart
      else Dead
    else if s.ReqFragment? then
      if IsUrlChar(ch) || ch == '?' || ch == '#' then ReqFragment else Dead
    else Dead
  }

  function SwitchUrlStart(f: Fields, ch: char): (a: Action)
    requires f.state.ReqSpacesBeforeUrl?
    ensures Shape(f, a)
  {
    if ch == ' ' then Go(f)
    else
      var s := ParseUrlChar(if f.verb.CONNECT? then ReqServerStart else ReqSpacesBeforeUrl, ch);
      if s.Dead? then Fail(To(f, s), HPE_INVALID_URL) else Mark(To(f, s), OnUrl)
  }

  /** The states in which no white space may follow. */
  predicate UrlOpen(s: State) {
    s.ReqSchema? || s.ReqSchemaSlash? || s.ReqSchemaSlashSlash? || s.ReqServerStart?
  }

  function SwitchUrl(f: Fields, ch: char): (a: Action)
    requires ReadsUrl(f.state)
    ensures Shape(f, a)
  {
    if ch == ' ' || ch == CR || ch == LF then
      if UrlOpen(f.state) then Fail(f, HPE_INVALID_URL)
      else if ch == ' ' then Flush(To(f, ReqHttpStart), OnUrl)
      else
        Flush(f.(httpMajor := 0, httpMinor := 9, state := if ch == CR then ReqLineAlmostDone else HeaderFieldStart), OnUrl)
    else
      var s := ParseUrlChar(f.state, ch);
      if s.Dead? then Fail(To(f, s), HPE_INVALID_URL) else Go(To(f, s))
  }

  function SwitchRequestHttp(f: Fields, ch: char): (a: Action)
    requires RequestHttpState(f.state)
    ensures Shape(f, a)
  {
    if f.state.ReqHttpStart? then
      if ch == 'H' then Go(To(f, ReqHttpH))
      else if ch == ' ' then Go(f)
      else Fail(f, HPE_INVALID_CONSTANT)
    else if f.state.ReqHttpH? then Expect(f, ch, 'T', ReqHttpHT)
    else if f.state.ReqHttpHT? then Expect(f, ch, 'T', ReqHttpHTT)
    else if f.state.ReqHttpHTT? then Expect(f, ch, 'P', ReqHttpHTTP)
    else Expect(f, ch, '/', ReqFirstHttpMajor) // ReqHttpHTTP
  }

  function SwitchRequestVersion(f: Fields, ch: char): (a: Action)
    requires RequestVersionState(f.state)
    ensures Shape(f, a)
  {
    if f.state.ReqLineAlmostDone? then
      if ch != LF then Fail(f, HPE_LF_EXPECTED) else Go(To(f, HeaderFieldStart))
    else if f.state.ReqHttpMajor? && ch == '.' then Go(To(f, ReqFirstHttpMinor))
    else if f.state.ReqHttpMinor? && ch == CR then Go(To(f, ReqLineAlmostDone))
    else if f.state.ReqHttpMinor? && ch == LF then Go(To(f, HeaderFieldStart))
    else if !IsNum(ch) || (f.state.ReqFirstHttpMajor? && ch == '0') then Fail(f, HPE_INVALID_VERSION)
    else if f.state.ReqFirstHttpMajor? then Go(f.(httpMajor := Digit(ch), state := ReqHttpMajor))
    else if f.state.ReqFirstHttpMinor? then Go(f.(httpMinor := Digit(ch), state := ReqHttpMinor))
    else if f.state.ReqHttpMajor? then
      var g := f.(httpMajor := 10 * f.httpMajor + Digit(ch));
      if g.httpMajor > 999 then Fail(g, HPE_INVALID_VERSION) else Go(g)
    else // ReqHttpMinor
      var g := f.(httpMinor := 10 * f.httpMinor + Digit(ch));
      if g.httpMinor > 999 then Fail(g, HPE_INVALID_VERSION) else Go(g)
  }

  /** The literals that header names and values are matched with. */
  datatype Literal =
    | CONNECTION | PROXY_CONNECTION | CONTENT_LENGTH | TRANSFER_ENCODING | UPGRADE | CHUNKED | KEEP_ALIVE | CLOSE

  function Length(l: Literal): nat {
    match l
    case CONNECTION => 10
    case PROXY_CONNECTION => 16
    case CONTENT_LENGTH => 14
    case TRANSFER_ENCODING => 17
    case UPGRADE => 7
    case CHUNKED => 7
    case KEEP_ALIVE => 10
    case CLOSE => 5
  }

  function Text(l: Literal): (t: string)
    ensures |t| == Length(l)
  {
    match l
    case CONNECTION => "connection"
    case PROXY_CONNECTION => "proxy-connection"
    case CONTENT_LENGTH => "content-length"
    case TRANSFER_ENCODING => "transfer-encoding"
    case UPGRADE => "upgrade"
    case CHUNKED => "chunked"
    case KEEP_ALIVE => "keep-alive"
    case CLOSE => "close"
  }

  /** A matcher after one more byte, given as its code `c`: the index moves on, and the header state
      stays, is lost, or becomes `done` at the last byte of the literal.  The NUL that ends the C
      string equals none of the bytes compared with it. */
  function Match(f: Fields, c: int, literal: Literal, done: HeaderState): (r: Fields)
    ensures r == f.(index := f.index + 1, headerState := r.headerState)
  {
    var i := f.index + 1;
    var g := f.(index := i);
    if i >= Length(literal) || c != Text(literal)[i] as int then g.(headerState := HGeneral)
    else if i == Length(literal) - 1 then g.(headerState := done)
    else g
  }

  /** The header states that the switch over a header name knows. */
  predicate NameState(h: HeaderState) {
    h.HGeneral? || h.HC? || h.HCO? || h.HCON? || h.HMatchingConnection? || h.HMatchingProxyConnection?
    || h.HMatchingContentLength? || h.HMatchingTransferEncoding? || h.HMatchingUpgrade?
    || h.HConnection? || h.HContentLength? || h.HTransferEncoding? || h.HUpgrade?
  }

  /** The header state and index after one more byte of a header name. */
  function SwitchFieldName(f: Fields, ch: char): (r: Fields)
    ensures r == f.(index := r.index, headerState := r.headerState)
  {
    var c := Token(ch);
    var h := f.headerState;
    if h.HGeneral? then f
    else if h.HC? then f.(index := f.index + 1, headerState := if c == 'o' then HCO else HGeneral)
    else if h.HCO? then f.(index := f.index + 1, headerState := if c == 'n' then HCON else HGeneral)
    else if h.HCON? then
      f.(index := f.index + 1,
         headerState := if c == 'n' then HMatchingConnection
                        else if c == 't' then HMatchingContentLength
                        else HGeneral)
    else if h.HMatchingConnection? then Match(f, c as int, CONNECTION, HConnection)
    else if h.HMatchingProxyConnection? then Match(f, c as int, PROXY_CONNECTION, HConnection)
    else if h.HMatchingContentLength? then Match(f, c as int, CONTENT_LENGTH, HContentLength)
    else if h.HMatchingTransferEncoding? then Match(f, c as int, TRANSFER_ENCODING, HTransferEncoding)
    else if h.HMatchingUpgrade? then Match(f, c as int, UPGRADE, HUpgrade)
    else if ch != ' ' then f.(headerState := HGeneral)
    else f
  }

  function FirstHeaderState(c: char): HeaderState {
    match c
    case 'c' => HC
    case 'p' => HMatchingProxyConnection
    case 't' => HMatchingTransferEncoding
    case 'u' => HMatchingUpgrade
    case _ => HGeneral
  }

  function SwitchFieldStart(f: Fields, ch: char): (a: Action)
    requires f.state.HeaderFieldStart?
    ensures Shape(f, a)
  {
    if ch == CR then Go(To(f, HeadersAlmostDone))
    else if ch == LF then Again(To(f, HeadersAlmostDone))
    else if !IsToken(ch) then Fail(f, HPE_INVALID_HEADER_TOKEN)
    else Mark(f.(index := 0, state := HeaderField, headerState := FirstHeaderState(Token(ch))), OnHeaderField)
  }

  function SwitchField(f: Fields, ch: char): (a: Action)
    requires f.state.HeaderField?
    ensures Shape(f, a)
  {
    hide SwitchFieldName;
    if IsToken(ch) then
      if NameState(f.headerState) then Go(SwitchFieldName(f, ch)) else Broken(f)
    else if ch == ':' then Flush(To(f, HeaderValueStart), OnHeaderField)
    else if ch == CR then Flush(To(f, HeaderAlmostDone), OnHeaderField)
    else if ch == LF then Flush(To(f, HeaderFieldStart), OnHeaderField)
    else Fail(f, HPE_INVALID_HEADER_TOKEN)
  }

  /** t *= base; t += d in 64-bit arithmetic, and the overflow guard after it. */
  function Shift64(n: nat, base: nat, d: nat): Option<nat> {
    var t := (n * base + d) % 0x1_0000_0000_0000_0000;
    if t < n || t == ULLONG_MAX then None else Some(t)
  }

  /** What the first byte of a value makes of the header state. */
  function FirstValueState(h: HeaderState, ch: char): HeaderState {
    if h.HTransferEncoding? && Lower(ch) == 'c' as int then HMatchingTransferEncodingChunked
    else if h.HConnection? && Lower(ch) == 'k' as int then HMatchingConnectionKeepAlive
    else if h.HConnection? && Lower(ch) == 'c' as int then HMatchingConnectionClose
    else if h.HContentLength? then HContentLength
    else HGeneral
  }

  function SwitchValueStart(f: Fields, ch: char): (a: Action)
    requires f.state.HeaderValueStart?
    ensures Shape(f, a)
  {
    if ch == ' ' || ch == '\t' then Go(f)
    else if ch == CR then
      Action(f.(index := 0, headerState := HGeneral, state := HeaderAlmostDone),
             Some(OnHeaderValue), Some(OnHeaderValue), Silent, Break)
    else if ch == LF then
      Action(f.(index := 0, state := HeaderFieldStart), Some(OnHeaderValue), Some(OnHeaderValue), Silent, Break)
    else
      var g := f.(state := HeaderValue, index := 0, headerState := FirstValueState(f.headerState, ch));
      if f.headerState.HUpgrade? then Mark(g.(flags := g.flags.(upgrade := true)), OnHeaderValue)
      else if !f.headerState.HContentLength? then Mark(g, OnHeaderValue)
      else if !IsNum(ch) then Fail(g, HPE_INVALID_CONTENT_LENGTH)
      else Mark(g.(contentLength := Digit(ch)), OnHeaderValue)
  }

  /** The header state and index after one more byte of a value other than a length. */
  function SwitchValueText(f: Fields, ch: char): (r: Fields)
    ensures r == f.(index := r.index, headerState := r.headerState)
  {
    var h := f.headerState;
    if h.HMatchingTransferEncodingChunked? then Match(f, Lower(ch), CHUNKED, HTransferEncodingChunked)
    else if h.HMatchingConnectionKeepAlive? then Match(f, Lower(ch), KEEP_ALIVE, HConnectionKeepAlive)
    else if h.HMatchingConnectionClose? then Match(f, Lower(ch), CLOSE, HConnectionClose)
    else if (h.HTransferEncodingChunked? || h.HConnectionKeepAlive? || h.HConnectionClose?) && ch == ' ' then f
    else f.(headerState := HGeneral)
  }

  function SwitchValue(f: Fields, ch: char): (a: Action)
    requires f.state.HeaderValue?
    ensures Shape(f, a)
  {
    hide SwitchValueText;
    if ch == CR then Flush(To(f, HeaderAlmostDone), OnHeaderValue)
    else if ch == LF then Action(To(f, HeaderAlmostDone), None, Some(OnHeaderValue), Silent, Reexecute)
    else if f.headerState.HConnection? || f.headerState.HTransferEncoding? then Broken(f)
    else if !f.headerState.HContentLength? then Go(SwitchValueText(f, ch))
    else if ch == ' ' then Go(f)
    else if !IsNum(ch) || Shift64(f.contentLength, 10, Digit(ch)).None? then Fail(f, HPE_INVALID_CONTENT_LENGTH)
    else Go(f.(contentLength := Shift64(f.contentLength, 10, Digit(ch)).value))
  }

  function FlagsAfterValue(flags: Flags, h: HeaderState): Flags {
    if h.HConnectionKeepAlive? then flags.(keepAlive := true)
    else if h.HConnectionClose? then flags.(close := true)
    else if h.HTransferEncodingChunked? then flags.(chunked := true)
    else flags
  }

  function SwitchHeaderEnd(f: Fields, ch: char): (a: Action)
    requires HeaderEndState(f.state)
    ensures Shape(f, a)
  {
    if f.state.HeaderValueLws? then
      if ch == ' ' || ch == '\t' then Go(To(f, HeaderValueStart)) else Again(To(f, HeaderFieldStart))
    else if ch != LF then Fail(f, HPE_STRICT)
    else if f.state.HeaderAlmostDone? then
      Go(f.(state := HeaderValueLws, flags := FlagsAfterValue(f.flags, f.headerState)))
    else if f.flags.trailing then // HeadersAlmostDone
      Complete(To(f, NewMessage(f)))
    else
      Action(f.(state := HeadersDone, upgrade := f.flags.upgrade || f.verb.CONNECT?),
             None, None, NotifyHeadersComplete, Reexecute)
  }

  function SwitchHeadersDone(f: Fields, ch: char): (a: Action)
    requires f.state.HeadersDone?
    ensures Shape(f, a)
  {
    if ch != LF then Fail(f, HPE_STRICT)
    else
      var g := f.(nread := 0);
      if g.upgrade then Action(To(g, NewMessage(g)), None, None, NotifyMessageComplete, Return)
      else if g.flags.skipBody then Complete(To(g, NewMessage(g)))
      else if g.flags.chunked then Go(To(g, ChunkSizeStart))
      else if g.contentLength == 0 then Complete(To(g, NewMessage(g)))
      else if g.contentLength != ULLONG_MAX then Go(To(g, BodyIdentity))
      else if g.typ.Request? || !MessageNeedsEof(g) then Complete(To(g, NewMessage(g)))
      else Go(To(g, BodyIdentityEof))
  }

  function SwitchChunkSize(f: Fields, ch: char): (a: Action)
    requires ChunkSizeState(f.state)
    ensures Shape(f, a)
  {
    if !f.flags.chunked || (f.state.ChunkSizeStart? && f.nread != 1) then Broken(f)
    else if f.state.ChunkSizeStart? then
      if Unhex(ch) == -1 then Fail(f, HPE_INVALID_CHUNK_SIZE)
      else Go(f.(contentLength := Unhex(ch), state := ChunkSize))
    else if f.state.ChunkSizeAlmostDone? then
      if ch != LF then Fail(f, HPE_STRICT)
      else if f.contentLength == 0 then
        Go(f.(nread := 0, flags := f.flags.(trailing := true), state := HeaderFieldStart))
      else Go(f.(nread := 0, state := ChunkData))
    else if ch == CR then Go(To(f, ChunkSizeAlmostDone))
    else if f.state.ChunkParameters? then Go(f)
    else // ChunkSize
      if Unhex(ch) == -1 then
        if ch == ';' || ch == ' ' then Go(To(f, ChunkParameters)) else Fail(f, HPE_INVALID_CHUNK_SIZE)
      else if Shift64(f.contentLength, 16, Unhex(ch)).None? then Fail(f, HPE_INVALID_CONTENT_LENGTH)
      else Go(f.(contentLength := Shift64(f.contentLength, 16, Unhex(ch)).value))
  }

  function SwitchChunkEnd(f: Fields, ch: char): (a: Action)
    requires ChunkEndState(f.state)
    ensures Shape(f, a)
  {
    if !f.flags.chunked || (f.state.ChunkDataAlmostDone? && f.contentLength != 0) then Broken(f)
    else if f.state.ChunkDataAlmostDone? then
      if ch != CR then Fail(f, HPE_STRICT) else Flush(To(f, ChunkDataDone), OnBody)
    else // ChunkDataDone
      if ch != LF then Fail(f, HPE_STRICT) else Go(f.(nread := 0, state := ChunkSizeStart))
  }

  /** The asserts before a bulk read of body bytes. */
  predicate BodyAsserts(f: Fields) {
    f.state.BodyIdentityEof?
    || (f.contentLength != 0 && f.contentLength != ULLONG_MAX && (f.state.ChunkData? ==> f.flags.chunked))
  }

  /** The states that read body bytes, for one byte. */
  function SwitchBody(f: Fields, ch: char): (a: Action)
    requires ReadsBody(f.state)
    ensures Shape(f, a)
  {
    if !BodyAsserts(f) then Broken(f)
    else if f.state.BodyIdentityEof? then Go(f)
    else
      var g := f.(contentLength := f.contentLength - 1);
      if g.contentLength > 0 then Go(g)
      else if f.state.BodyIdentity? then Again(To(g, MessageDone))
      else Go(To(g, ChunkDataAlmostDone))
  }

  function SwitchMessageDone(f: Fields, ch: char): (a: Action)
    requires f.state.MessageDone?
    ensures Shape(f, a)
  {
    Complete(To(f, NewMessage(f)))
  }

  // ---------- The whole switch ----------

  function Cases(f: Fields, ch: char): (a: Action)
    ensures Shape(f, a)
  {
    hide SwitchDead, SwitchResponseStart, SwitchResponseVersion, SwitchStatusLine, SwitchStartReq,
      SwitchMethod, SwitchUrlStart, SwitchUrl, SwitchRequestHttp, SwitchRequestVersion, SwitchFieldStart,
      SwitchField, SwitchValueStart, SwitchValue, SwitchHeaderEnd, SwitchHeadersDone, SwitchChunkSize,
      SwitchChunkEnd, SwitchBody, SwitchMessageDone;
    hide Shape;
    if f.state.Dead? then SwitchDead(f, ch)
    else if ResponseStartState(f.state) then SwitchResponseStart(f, ch)
    else if ResponseVersionState(f.state) then SwitchResponseVersion(f, ch)
    else if StatusLineState(f.state) then SwitchStatusLine(f, ch)
    else if f.state.StartReq? then SwitchStartReq(f, ch)
    else if f.state.ReqMethod? then SwitchMethod(f, ch)
    else if f.state.ReqSpacesBeforeUrl? then SwitchUrlStart(f, ch)
    else if ReadsUrl(f.state) then SwitchUrl(f, ch)
    else if RequestHttpState(f.state) then SwitchRequestHttp(f, ch)
    else if RequestVersionState(f.state) then SwitchRequestVersion(f, ch)
    else if f.state.HeaderFieldStart? then SwitchFieldStart(f, ch)
    else if f.state.HeaderField? then SwitchField(f, ch)
    else if f.state.HeaderValueStart? then SwitchValueStart(f, ch)
    else if f.state.HeaderValue? then SwitchValue(f, ch)
    else if HeaderEndState(f.state) then SwitchHeaderEnd(f, ch)
    else if f.state.HeadersDone? then SwitchHeadersDone(f, ch)
    else if ChunkSizeState(f.state) then SwitchChunkSize(f, ch)
    else if ChunkEndState(f.state) then SwitchChunkEnd(f, ch)
    else if ReadsBody(f.state) then SwitchBody(f, ch)
    else SwitchMessageDone(f, ch)
  }

  // The verifier unfolds a recursive function only a level or two.  The switch sits behind a short
  // recursion, so that facts about whole runs do not drag in its hundred branches; the lemmas
  // `Open...` below open it where a proof needs one group of states.

  const SEAL: nat := |"seal"|

  function Sealed(k: nat, f: Fields, ch: char): (a: Action)
    ensures Shape(f, a)
    decreases k
  {
    hide Cases, Shape;
    if k == 0 then Cases(f, ch) else Sealed(k - 1, f, ch)
  }

  function Switch(f: Fields, ch: char): (a: Action)
    ensures Shape(f, a)
  {
    hide Sealed, Shape;
    Sealed(SEAL, f, ch)
  }

  lemma {:induction false} Unsealed(k: nat, f: Fields, ch: char)
    ensures Sealed(k, f, ch) == Cases(f, ch)
    decreases k
  {
    hide Cases, Shape;
    if k > 0 {
      Unsealed(k - 1, f, ch);
    }
  }

  /** Opens the switch. */
  lemma Opened(f: Fields, ch: char)
    ensures Switch(f, ch) == Cases(f, ch)
  {
    hide Cases, Shape;
    Unsealed(SEAL, f, ch);
  }
}
