/** The entities of http_parser.h: states, header states, methods, flags, error numbers,
    the parser's fields and the callbacks it makes. */
module HttpTypes {
  const ULLONG_MAX: nat := 0xFFFF_FFFF_FFFF_FFFF
  const HTTP_MAX_HEADER_SIZE: nat := 80 * 1024

  datatype Type = Request | Response

  /** enum state, without the two states of HTTP_BOTH detection. */
  datatype State =
    | Dead
    | StartRes | ResH | ResHT | ResHTT | ResHTTP
    | ResFirstHttpMajor | ResHttpMajor | ResFirstHttpMinor | ResHttpMinor
    | ResFirstStatusCode | ResStatusCode | ResStatus | ResLineAlmostDone
    | StartReq | ReqMethod
    | ReqSpacesBeforeUrl | ReqSchema | ReqSchemaSlash | ReqSchemaSlashSlash
    | ReqServerStart | ReqServer | ReqServerWithAt | ReqPath
    | ReqQueryStringStart | ReqQueryString | ReqFragmentStart | ReqFragment
    | ReqHttpStart | ReqHttpH | ReqHttpHT | ReqHttpHTT | ReqHttpHTTP
    | ReqFirstHttpMajor | ReqHttpMajor | ReqFirstHttpMinor | ReqHttpMinor | ReqLineAlmostDone
    | HeaderFieldStart | HeaderField | HeaderValueStart | HeaderValue | HeaderValueLws
    | HeaderAlmostDone
    | ChunkSizeStart | ChunkSize | ChunkParameters | ChunkSizeAlmostDone
    | HeadersAlmostDone | HeadersDone
    | ChunkData | ChunkDataAlmostDone | ChunkDataDone
    | BodyIdentity | BodyIdentityEof
    | MessageDone

  /** PARSING_HEADER: everything up to HeadersDone in the enumeration. */
  predicate ParsingHeader(s: State) {
    !(s.ChunkData? || s.ChunkDataAlmostDone? || s.ChunkDataDone?
      || s.BodyIdentity? || s.BodyIdentityEof? || s.MessageDone?)
  }

  datatype HeaderState =
    | HGeneral | HC | HCO | HCON
    | HMatchingConnection | HMatchingProxyConnection | HMatchingContentLength
    | HMatchingTransferEncoding | HMatchingUpgrade
    | HConnection | HContentLength | HTransferEncoding | HUpgrade
    | HMatchingTransferEncodingChunked | HMatchingConnectionKeepAlive | HMatchingConnectionClose
    | HTransferEncodingChunked | HConnectionKeepAlive | HConnectionClose

  datatype Method =
    | DELETE | GET | HEAD | POST | PUT | CONNECT | OPTIONS | TRACE | COPY | LOCK | MKCOL | MOVE
    | PROPFIND | PROPPATCH | SEARCH | UNLOCK | REPORT | MKACTIVITY | CHECKOUT | MERGE | MSEARCH
    | NOTIFY | SUBSCRIBE | UNSUBSCRIBE | PATCH | PURGE

  /** The table method_strings. */
  function MethodString(m: Method): string {
    match m
    case DELETE => "DELETE"
    case GET => "GET"
    case HEAD => "HEAD"
    case POST => "POST"
    case PUT => "PUT"
    case CONNECT => "CONNECT"
    case OPTIONS => "OPTIONS"
    case TRACE => "TRACE"
    case COPY => "COPY"
    case LOCK => "LOCK"
    case MKCOL => "MKCOL"
    case MOVE => "MOVE"
    case PROPFIND => "PROPFIND"
    case PROPPATCH => "PROPPATCH"
    case SEARCH => "SEARCH"
    case UNLOCK => "UNLOCK"
    case REPORT => "REPORT"
    case MKACTIVITY => "MKACTIVITY"
    case CHECKOUT => "CHECKOUT"
    case MERGE => "MERGE"
    case MSEARCH => "M-SEARCH"
    case NOTIFY => "NOTIFY"
    case SUBSCRIBE => "SUBSCRIBE"
    case UNSUBSCRIBE => "UNSUBSCRIBE"
    case PATCH => "PATCH"
    case PURGE => "PURGE"
  }

  /** The methods that the layer above knows. */
  predicate KnownMethod(v: Method) {
    v.GET? || v.POST? || v.PUT? || v.HEAD? || v.DELETE?
  }

  datatype Flags = Flags(
    chunked: bool, keepAlive: bool, close: bool, trailing: bool, upgrade: bool, skipBody: bool)

  const NO_FLAGS := Flags(false, false, false, false, false, false)

  /** The error numbers that parsing can set, and HPE_OK. */
  datatype Errno =
    | HPE_OK | HPE_INVALID_EOF_STATE | HPE_HEADER_OVERFLOW | HPE_CLOSED_CONNECTION | HPE_INVALID_VERSION | HPE_INVALID_STATUS
    | HPE_INVALID_METHOD | HPE_INVALID_URL | HPE_LF_EXPECTED | HPE_INVALID_HEADER_TOKEN | HPE_INVALID_CONTENT_LENGTH
    | HPE_INVALID_CHUNK_SIZE | HPE_INVALID_CONSTANT | HPE_STRICT | HPE_UNKNOWN

  /** struct http_parser.  The callback data pointer is the event log of `Machine`. */
  datatype Fields = Fields(
    typ: Type, flags: Flags, state: State, headerState: HeaderState, index: nat,
    nread: nat, contentLength: nat,
    httpMajor: nat, httpMinor: nat, statusCode: nat, verb: Method,
    errno: Errno, upgrade: bool)

  /** http_parser_init: all fields zero, then type and state. */
  function Init(t: Type): Fields {
    Fields(t, NO_FLAGS, if t.Request? then StartReq else StartRes, HGeneral, 0, 0, 0, 0, 0, 0, DELETE, HPE_OK, false)
  }

  /** The four kinds of data callback. */
  datatype Kind = OnUrl | OnHeaderField | OnHeaderValue | OnBody

  /** What a notification callback can read from the parser. */
  datatype Snapshot = Snapshot(verb: Method, statusCode: nat, httpMajor: nat, httpMinor: nat)

  /** How the body is delimited, fixed when the headers are complete. */
  datatype Framing = NoBody | Sized(length: nat) | Chunked | UntilEof

  datatype Event =
    | Data(kind: Kind, bytes: string)
    | HeadersComplete(framing: Framing)
    | MessageComplete(snap: Snapshot)

  function SnapshotOf(f: Fields): Snapshot {
    Snapshot(f.verb, f.statusCode, f.httpMajor, f.httpMinor)
  }
}
