# The HTTP core of stutter

This project models the HTTP code of the stutter web server and proves its central promises: that
the incremental parser gives one answer however the network cuts the stream, that messages printed
by one side are read back by the other, that pipelined requests are served one by one and in order,
and that a URL is cut into its parts.

## How it is built

`dafny verify dfyconfig.toml` checks everything.

* **The parser** (`stutter/http/joyent/http_parser.c`). `Dispatch` is one run of the C `switch`: from
  the fields of `struct http_parser` and a byte to an action (new fields, mark, flush, callback, and
  how the case ends; an assert that fails is an exit of its own). `Machine` is the reference: one byte
  at a time, one log in which adjacent data callbacks of a kind are joined. `Execution` is the program:
  the class `HttpParser` with the fields of the struct and `Execute`, the loop with marks, bulk reads of
  bodies and `goto reexecute_byte`, proved to be the reference. `Invariant`, `Grammar`, `Fragmentation`,
  `Recognisers`, `Accumulators`, `Numbers`, `Methods`, `Targets`, `HeaderLines`, `MessageRuns`, `FirstLines`,
  `StatusLines`, `Chunked`, `Framings`, `Upgrades` and `Streams` prove what holds of every run and how messages are
  read; `Alphabets` and `Rejections` say what is not accepted, and with which error. `Framings` and `Targets` say it
  by the texts and numbers of a message alone, without the functions of the switch that they speak of.
* **The layer above** (`parser.cpp`, `request.cpp`, `reply.cpp`, `message.cpp`, `body.cpp`,
  `strategy.cpp`, `connection.cpp`). `Receiver`, `Headers`, `QueryString`, `Printing`, `RoundTrips`,
  `Uploads`, `ChunkedUploads`, `Pipelining` and `Answers` specify it on values, `Answers` by the bytes that a
  client is sent for every request, accepted or refused; the classes in `BodyStore`, `MessageBase`,
  `Strategy`, `RequestObject`, `ReplyObject`, `ParserObject` and `ConnectionObject` are proved against these.
  `ObjectRoundTrips` feeds a parser object, and `ServedAnswers` and `ServedPipeline` follow a connection object from
  its first byte to its last, through one request and through many.
* **The URL splitter** (end of `http_parser.c`). `UrlParts` labels every byte with its part, `Url` has the
  two loops, `UrlProperties` and `UrlRoundTrip` say what the result means, and `Hosts` and `Connects` which URLs are
  accepted.

## What the model assumes

* A byte is a `char`; every test in the code gives one answer for all bytes of 128 and above.
  Integers are unbounded except where the code can reach their width: the 64-bit accumulators, the
  16-bit offsets of the URL splitter, and the `int` that a body size is printed through are written out.
* Callbacks return 0 and do not pause. Whether the completion callback initialises the parser again is
  a policy, any function of everything called back so far. A connection's policy is whether its
  replies reach the client.
* `Execute` records its callbacks, and the C++ callbacks are delivered from that record when it returns. They
  touch the parser only by that initialisation, which the policy has made at its place; the rest of
  `Parser::reset` follows with the delivery.
* The base class `Message` is a field of `Request` and `Reply`. A `std::map` with the case-insensitive
  order is the sorted sequence of its entries, and a handler is a function from a request and a blank
  reply to a reply.
* `safe_write` and `safe_sendfile` take part of what they are given or fail, after any number of bytes;
  `safe_sendfile` leaves the offset alone, because the sender advances it.
* A disk is healthy and takes what is written to it, if only in parts; or it is missing, so that no temporary
  file can be made; or it is flaky, and anything may fail at any time. `Message::add_body` drops what the disk
  does not take and sets no error (message.cpp:60-73), so that a POST of 8193 bytes without a disk is accepted
  with 8192 of them. What is said of parser objects and of uploads is said for every disk, by `Stores` and
  `Kept`: nothing but body bytes is lost, and none are if and only if the body has its full length. Only the
  connection object is given healthy disks for its request and its reply.
* Where comment and code differ the code is followed: the state `s_req_method` accepts some misspelt
  methods (`WordIff` says which); a length may have blanks among its digits, of which the parser uses all and the limit
  on uploads only those before the first blank (`LimitMissed`); the table `unhex` takes bytes of 128 and above
  for zeros (`SizeStartIff`), which section 3.6.1 of RFC 2616 does not; and the target of a CONNECT request may be
  more than a host and a port (`ConnectIff`).

## Model

| member | source | states |
|---|---|---|
| Execution.HttpParser.Execute | stutter/http/joyent/http_parser.c:580-1853 | one call with marks, bulk body reads and reexecution does exactly what the byte-at-a-time reference machine does: same fields, same byte count, same joined callbacks (on an error at most the last data callback is still unsent); after an error a call reads nothing and calls nothing back |
| Fragmentation.Feed | stutter/http/joyent/http_parser.c:580-1844 | calling execute on the pieces of a stream until one falls short does exactly what the calls of the reference machine on these pieces do, for every stream: fields, callbacks, bytes read, and where and how it stops; and that is what one call on the whole stream does unless an upgrade ends where a piece ends, when the callers feed on |
| Fragmentation.CallsAreOneRun | stutter/http/joyent/http_parser.c:580-1844 | the calls on the pieces of a stream are the one call on the whole, for every cut into non-empty pieces, unless an upgrade ends the call early |
| Fragmentation.FragmentationIndependence | stutter/http/joyent/http_parser.c:580-1844 | two ways of cutting one stream cannot be told apart, unless an upgrade ends the stream before its last byte |
| Grammar.EveryRun | stutter/http/joyent/http_parser.c:580-1853 | on every input, for requests and responses and whatever the completion callback resets: no assert fails, the invariant holds until an error, and at every moment the callbacks obey the grammar: URL of a request, header names each with its values, headers complete, the announced body, trailers only after chunks, completion; a body announced with a length has exactly that many bytes |
| Grammar.PrefixFits | stutter/http/joyent/http_parser.c:580-1853 | callbacks that obey the grammar did so at every earlier moment |
| Fragmentation.CallFits | stutter/http/joyent/http_parser.c:580-1853 | every call with data keeps the callbacks within the grammar, whatever the calls before it were and even if it fails |
| Fragmentation.TraceFits | stutter/http/joyent/http_parser.c:92-119 | and so are the callbacks in the pieces in which they were made, at every moment |
| Grammar.RunFits | stutter/http/joyent/http_parser.c:580-1853 | the phase of the callbacks fits the parser state through every run; in a sized body the bytes delivered and the remaining length add up to the declared length |
| Grammar.PhaseJoin | stutter/http/joyent/http_parser.c:92-119 | cutting data callbacks into pieces does not change the grammar phase |
| Grammar.DeadIsSilent | stutter/http/joyent/http_parser.c:655-663 | no callback follows the last message of a connection that closes; only line ends are still read there |
| Invariant.RunKeeps | stutter/http/joyent/http_parser.c:580-1853 | from every state that satisfies the invariant no run reaches a failing assert, and the invariant holds again unless an error is set |
| Invariant.SwitchKeeps | stutter/http/joyent/http_parser.c:653-1825 | every case of the switch keeps the invariant: matcher indices inside their literals, the chunked flag in chunk states, remaining lengths neither 0 nor the unset value in body states, nread within 80 KiB |
| Invariant.StepKeeps | stutter/http/joyent/http_parser.c:640-653 | counting a header byte and dispatching it keeps the invariant, or fails with the header overflow |
| Invariant.InitInv | stutter/http/joyent/http_parser.c:1905-1914 | an initialised parser satisfies the invariant |
| Accumulators.LengthExact | stutter/http/joyent/http_parser.c:1400-1477 | a Content-Length of digits below 2^64 - 1 is accepted and stored exactly |
| Accumulators.LengthTextIff | stutter/http/joyent/http_parser.c:1400-1477 | which texts are accepted as lengths: a digit first, then digits and blanks, as long as the guard refuses no digit; and the number that is stored then |
| Accumulators.LengthIsDecimal | stutter/http/joyent/http_parser.c:1454-1477 | if the digits of such a text denote a number below 2^64 - 1 it is accepted as that number, the blanks among them being skipped |
| Accumulators.LengthIff | stutter/http/joyent/http_parser.c:1400-1477 | a length of digits is stored exactly only then: its value is below 2^64 - 1 if and only if the run accepts it and holds its value |
| Accumulators.SizeExact | stutter/http/joyent/http_parser.c:1699-1750 | a hexadecimal chunk size below 2^64 - 1 is accepted and stored exactly |
| Accumulators.SizeIff | stutter/http/joyent/http_parser.c:1699-1750 | and only such a size |
| Accumulators.ShiftExact | stutter/http/joyent/http_parser.c:1462-1474 | below 2^64 - 1 neither the multiplication nor the addition wraps and the guard lets the digit pass |
| Accumulators.ShiftIff | stutter/http/joyent/http_parser.c:1462-1474 | one more digit is exact if and only if the true value is below 2^64 - 1; beyond that the guard lets it pass if and only if the wrapped value has not shrunk |
| Accumulators.LengthWraps | stutter/http/joyent/http_parser.c:1454-1477 | the length 30000000000000000000 is accepted as 11553255926290448384 |
| Accumulators.SizeTextIff | stutter/http/joyent/http_parser.c:1699-1750 | which texts free of CR, ; and space are read as chunk sizes: those in which every byte is a digit to the table and the guard refuses none; and the number that is stored then |
| Accumulators.SizeStartIff | stutter/http/joyent/http_parser.c:1699-1713 | a chunk size may start with a hexadecimal digit or with any byte of 128 or more, which counts as 0 |
| Rejections.EveryError | stutter/http/joyent/http_parser.c:640-1853 | every run that fails: all bytes before the one it stops at were accepted, and the error is one of those of the state that they lead to, or the overflow of the headers |
| Rejections.StepComplains | stutter/http/joyent/http_parser.c:640-651 | the headers overflow with the byte after the first 81920 of them, and no other byte sets that error; any other error is one of those of the state that the byte was read in |
| Rejections.NothingElse | stutter/http/joyent/http_parser.c:711-1815 | where only one byte may follow no other one is accepted: in the word HTTP/, behind a CR, and behind the data of a chunk |
| Rejections.NameIff | stutter/http/joyent/http_parser.c:1181-1358 | what stands before a colon is accepted as a name if and only if it is a token |
| Rejections.MethodComplains | stutter/http/joyent/http_parser.c:885-984 | a wrong byte in a method is HPE_UNKNOWN where its beginning is shared by several methods and HPE_INVALID_METHOD elsewhere |
| Rejections.SizeComplains | stutter/http/joyent/http_parser.c:1716-1750 | a wrong byte in a chunk size is a size that got too large if it is a digit to the table, and otherwise no size |
| Rejections.EofIs | stutter/http/joyent/http_parser.c:598-617 | the zero-length call in every state: it completes a body that is read until then, changes nothing before a message and behind the last one, and elsewhere is an error that returns 1 |
| Rejections.LeadingLines | stutter/http/joyent/http_parser.c:702-883 | line ends before a request or a response are skipped |
| Alphabets.TokenBytes | stutter/http/joyent/http_parser.c:153-186 | the table of tokens holds the printable bytes that are no separators (section 2.2 of RFC 2616) |
| Alphabets.Letters | stutter/http/joyent/http_parser.c:366-367 | letters and their lower case |
| Alphabets.Digits | stutter/http/joyent/http_parser.c:188-197 | the table unhex gives every digit of either case its value, and -1 to all other bytes below 128 |
| Alphabets.UrlBytes | stutter/http/joyent/http_parser.c:207-381 | the bytes of paths, of user information and of host names |
| Alphabets.MethodNames | stutter/http/joyent/http_parser.c:138-145 | every method is recognised by its own name |
| Recognisers.NameRecognised | stutter/http/joyent/http_parser.c:1181-1336 | the incremental matcher of header names equals a comparison of the whole name, ignoring case, with the known names |
| HeaderLines.HeaderLine | stutter/http/joyent/http_parser.c:1181-1558 | a header line, ended by CR and LF or by LF alone, sets the chunked, keep-alive and close flags if and only if the value is that literal, ignoring case, followed by spaces only, and stores a length in any spelling that is accepted, blanks among its digits included; the name and the value are called back once |
| HeaderLines.ValueLine | stutter/http/joyent/http_parser.c:1361-1546 | the same for a value with at least one byte, after leading blanks |
| HeaderLines.EmptyValueLine | stutter/http/joyent/http_parser.c:1361-1384 | an empty value is called back as an empty value |
| HeaderLines.BareName | stutter/http/joyent/http_parser.c:1345-1355 | a line of a name alone is let pass, with either line end: the name is called back without a value, and neither flags nor length change |
| HeaderLines.FoldedLine | stutter/http/joyent/http_parser.c:1550-1558 | a line that starts with a blank is one more value of the name before it as far as the parser still knows it, and is called back joined to the value before it |
| HeaderLines.TwoLineHeader | stutter/http/joyent/http_parser.c:1181-1558 | a header whose value goes on in a second line is called back with both parts joined; the flags are those of the first part, and the length is that of the second one alone |
| MessageRuns.HeaderBlock | stutter/http/joyent/http_parser.c:1181-1558 | a list of header lines is called back in order and accumulates flags and length line by line |
| MessageRuns.HeaderLinesRead | stutter/http/joyent/http_parser.c:1181-1558 | header lines, each with either line end, are called back in order and leave the flags and the length of the lines |
| MessageRuns.HeadEnd | stutter/http/joyent/http_parser.c:1560-1649 | the empty line, of CR and LF or of LF alone, ends the headers: the same machine is left for both, the one that the body starts from |
| MessageRuns.SizedBody | stutter/http/joyent/http_parser.c:1651-1697 | a sized body is called back whole and followed by one completion, and the next message is counted from its first byte |
| MessageRuns.RequestRead | stutter/http/joyent/http_parser.c:580-1853 | a whole request of any method but CONNECT, with a body of announced length, is read to its end, with one completion; the completion callback can leave a fresh parser, and otherwise the connection is dead if and only if a header closed it |
| MessageRuns.ResponseRead | stutter/http/joyent/http_parser.c:580-1853 | the same for a response |
| Framings.KeptAlive | stutter/http/joyent/http_parser.c:1879-1896 | a parser that is never reset reads requests with lengths one behind the other to the last byte as long as no line of them says close, and is dead behind one that does |
| Framings.ChunkedPersists | stutter/http/joyent/http_parser.c:1879-1896 | a connection persists behind a chunked message by the texts of its lines and its trailers |
| Framings.EofBodyRead | stutter/http/joyent/http_parser.c:1636-1645 | a response whose lines announce neither chunks nor a length, with a code outside 100 to 199, 204 and 304, reads any body to its last byte, calls back the headers as read until end of file and the body once, and does not complete; said by the numbers and by the texts of the lines |
| Framings.EofCompletes | stutter/http/joyent/http_parser.c:598-617 | the zero-length call completes it, returns 0 and changes nothing but by the completion callback |
| Framings.BodilessRead | stutter/http/joyent/http_parser.c:1855-1876 | with one of those codes it is complete at the empty line without a body, and whether the next response is awaited depends on the version and on the Connection lines alone |
| Framings.EofReplyArrives | stutter/http/parser.cpp:19-152 | a reply that ends with its connection arrives with its code, its headers over those that were there, and its whole body, however its callbacks were cut |
| Framings.ShortestReply | stutter/http/joyent/http_parser.c:702-877 | there are such responses with every code up to 999 |
| Framings.FlagsSay | stutter/http/joyent/http_parser.c:1525-1547 | after a block of lines the close, keep-alive, chunked and upgrade flags are set if and only if some line says so, by the texts of names and values in lower case |
| Framings.PersistsIs | stutter/http/joyent/http_parser.c:1879-1896 | a connection persists, in version 1.1 and above, if and only if no Connection or Proxy-Connection line says close, and in older versions if and only if one says keep-alive |
| Framings.KnownNames | stutter/http/joyent/http_parser.c:128-136 | the names that the parser knows, letter for letter |
| Framings.KnownValues | stutter/http/joyent/http_parser.c:128-136 | the values that the parser knows, letter for letter |
| Upgrades.UpgradeRead | stutter/http/joyent/http_parser.c:1606-1624 | a CONNECT request or one with an Upgrade line, in any spelling and whatever is behind its head: the run ends at the empty line with the request completed and no body, and reads nothing of the rest |
| Upgrades.UpgradeCall | stutter/http/joyent/http_parser.c:1618-1624 | a call of execute on it returns the length of the head, sets no error and leaves the upgrade field set |
| Upgrades.NoUpgrade | stutter/http/joyent/http_parser.c:1560-1649 | any other request goes on behind its head: with chunks if a line announces them, else with the announced body, else it is complete |
| Methods.WordIff | stutter/http/joyent/http_parser.c:879-984 | a word with a space behind it is taken for a method if and only if it has the length of its name and agrees with it in every byte but the third; there any byte but NUL passes, save that CONNECT, COPY, MKCOL, MKACTIVITY, SUBSCRIBE, PURGE and UNSUBSCRIBE need theirs, PUT may not have R and UNLOCK not S |
| Methods.WordIs | stutter/http/joyent/http_parser.c:885-984 | following the bytes of a word through the changes of method gives exactly the methods the word is taken for, by comparing whole texts |
| Methods.TakenRead | stutter/http/joyent/http_parser.c:879-984 | such a word is read to its end and leaves its method |
| FirstLines.AnyLineRead | stutter/http/joyent/http_parser.c:879-1179 | a request line with any word that is taken for a method, any accepted target, any number of spaces between its parts, a version in any spelling and either line end is read as that method, target and version |
| FirstLines.OldLineRead | stutter/http/joyent/http_parser.c:1034-1047 | a request line that ends behind its target is one of version 0.9 |
| FirstLines.WordLineRead | stutter/http/joyent/http_parser.c:879-1179 | a request line with any word that is taken for a method is read as that method, its URL and version 1.1 |
| FirstLines.MisspeltLine | stutter/http/joyent/http_parser.c:969-974 | a line that starts with GEX is read as a GET, although no method has that name |
| FirstLines.UrlRead | stutter/http/joyent/http_parser.c:986-1057 | a legal URL is called back whole |
| FirstLines.RequestLineRead | stutter/http/joyent/http_parser.c:879-1179 | a printed request line with any method is read as its method, target and version 1.1 |
| Targets.TargetIff | stutter/http/joyent/http_parser.c:443-578 | which targets are accepted, as texts: for CONNECT a server and perhaps a path or query; otherwise what starts with / or * and goes on with printable bytes, or letters, "://" and a server, in which no two @ follow each other |
| Rejections.UrlIff | stutter/http/joyent/http_parser.c:986-1057 | a target with a space behind it is read if and only if it is one of these |
| StatusLines.StatusLineRead | stutter/http/joyent/http_parser.c:702-877 | a printed status line is read as its version and code; the phrase is skipped |
| StatusLines.AnyStatusLineRead | stutter/http/joyent/http_parser.c:702-877 | and so is a status line with its numbers in any spelling, more spaces before the code, no phrase, and either line end |
| Numbers.NumberIff | stutter/http/joyent/http_parser.c:745-1179 | a version number of a request or of a response, or a status code, in any spelling is accepted if and only if it is at most 999, and then stored; the major version of a request may not start with 0 |
| MessageRuns.MessageTail | stutter/http/joyent/http_parser.c:1181-1697 | headers, empty line and body are read to the end with one completion; unless the callback resets the parser, the next message is awaited if and only if the connection persists: in 1.1 unless a header closes it, in 1.0 only if a header keeps it alive |
| Chunked.ChunkRead | stutter/http/joyent/http_parser.c:1699-1815 | a chunk with any spelling of its size and any extension is called back as its data |
| Chunked.ChunksRead | stutter/http/joyent/http_parser.c:1699-1815 | a list of chunks is called back as their concatenation |
| Chunked.ChunkedBodyRead | stutter/http/joyent/http_parser.c:1564-1815 | chunks, last chunk, trailers and final line give the payload, the trailers and one completion (section 3.6.1 of RFC 2616); without a reset the lines of the trailers count for what follows, and their bytes count against the limit of the next headers |
| Chunked.TrailerEnd | stutter/http/joyent/http_parser.c:1562-1571 | the empty line behind the trailers, with either line end, completes the message |
| Chunked.ChunkedMessage | stutter/http/joyent/http_parser.c:1560-1815 | a message whose headers announce chunks is decoded so even when they also announce a length, and the next state depends on its lines and its trailers |
| RoundTrips.UrlLimit | stutter/http/parser.cpp:92-103 | however a URL is cut, the error is set if and only if the whole exceeds 4096 bytes, and otherwise the message holds the whole URL |
| RoundTrips.HeadersOn | stutter/http/parser.cpp:33-90 | header callbacks rebuild the last-wins map of the header lines |
| RoundTrips.RequestDecided | stutter/http/parser.cpp:19-152 | any URL, any header lines in any order, any framing and body, cut anyhow: the request arrives unchanged and without error if and only if its URL and its lines keep the limits; its headers are the last-wins map of its lines in any case; if that map announces more than 1 MiB no body byte is stored |
| RoundTrips.NeverBadIs | stutter/http/parser.cpp:65-90 | the checks made while the map fills fail if and only if some line breaks a limit |
| RoundTrips.RequestArrives | stutter/http/parser.cpp:19-152 | within the limits the message has exactly its method, URL, last-wins headers, query and body, with no error |
| RoundTrips.RequestRefused | stutter/http/parser.cpp:71-125 | a request whose header map announces more than 1 MiB ends with the body error and no body byte stored |
| Uploads.EveryRequest | stutter/http/parser.cpp:71-125 | on every byte string, for every policy, every cut and every disk, even if the parser fails later: of a completed request that announced a length and has no error exactly that many bytes were called back; it has stored all of them if and only if it has stored that many, which it has on a healthy disk and when they fit into memory; without a disk it has stored the first 8192 |
| Uploads.StoredBody | stutter/http/parser.cpp:120-125 | the same for every segment of grammatical callbacks between two completions, and for every framing |
| Uploads.AllStored | stutter/http/parser.cpp:120-125 | a request without error has kept the body bytes that were called back as far as the disk took them, and all of them if and only if their number is right |
| Uploads.UploadLimit | stutter/http/parser.cpp:71-125 | a request with one length, in any spelling that is accepted and among any lines in any order, on any disk: its body has as many bytes as all digits of the length say; it is accepted if and only if the URL and the number before the first blank keep the limits and it expects nothing; accepted, it has kept its body as far as the disk took it; refused as too large, none of it |
| Uploads.LimitMissed | stutter/http/parser.cpp:71-125 | such a request is accepted with a body of more than 1 MiB if and only if the number before the first blank is at most 1 MiB and that of all digits is more |
| Uploads.TwoReadings | stutter/http/parser.cpp:76-84 | the limit is checked against the number before the first blank, the body is framed by the number of all digits; so without a digit behind a blank the limit is never missed |
| Uploads.BlankInLength | stutter/http/parser.cpp:76-84 | the length 2 000000 is checked as 2 and announces two million bytes |
| Uploads.GapUpload | stutter/http/parser.cpp:71-125 | a POST with this length is read to its end by any fresh parser and accepted with two million bytes |
| ChunkedUploads.ChunkedUpload | stutter/http/parser.cpp:120-125 | any request whose lines announce chunks, with any chunks in any spelling and any trailers, is read from the wire to its end; cut anyhow and on any disk it is accepted if and only if its URL, its lines and its trailers but the last keep the limits, and has then arrived whole, with the bytes of its chunks as far as the disk took them |
| ChunkedUploads.ChunkedRequestRead | stutter/http/joyent/http_parser.c:580-1853 | the callbacks of such a request, and the fresh parser that its completion can leave; otherwise the connection is dead if and only if a header or a trailer says close |
| ChunkedUploads.ChunkedStored | stutter/http/parser.cpp:19-152 | the same for the callbacks of a chunked request alone |
| ChunkedUploads.TrailersOn | stutter/http/parser.cpp:33-90 | of the trailers all but the last enter the headers, and their limits are checked; the last is never saved |
| ChunkedUploads.PlainChunked | stutter/http/joyent/http_parser.c:1560-1815 | a POST of one chunk meets the conditions |
| RoundTrips.ReplyOn | stutter/http/parser.cpp:19-152 | from the callbacks of a response the message has its code, headers and body |
| Receiver.OnPieces | stutter/http/parser.cpp:33-125 | two pieces of a header name, value, body or short URL do what the whole does |
| Receiver.OnJoin | stutter/http/parser.cpp:19-152 | what the callbacks make of a message depends on the joined callbacks only: on everything while there is no error, and on all but the URL of a refused request otherwise |
| Receiver.OnWhole | stutter/http/parser.cpp:19-152 | the same for a message with its completion |
| Receiver.AtolIs | stutter/http/parser.cpp:76-84 | what atol makes of any text: blanks, a sign and digits up to the first other byte, cut to 64 bits |
| Receiver.StoresOn | stutter/http/parser.cpp:19-152 | a parser object on any disk and a receiver that loses nothing stay alike through every callback but body bytes |
| Receiver.StoresBody | stutter/http/parser.cpp:120-125 | and through these up to the bytes that the disk does not take, which set no error |
| Printing.SizeTextExact | stutter/http/message.cpp:40-47 | the body size goes through an int: the printed Content-Length is the size if and only if it is below 2^31 |
| Printing.SizeTextWraps | stutter/http/message.cpp:40-47 | a larger size is printed as its remainder by 2^32, from 2^31 on as a negative number |
| Printing.RequestRoundTrip | stutter/http/request.cpp:146-172 | printing a request and reading it back gives the same method, URL, headers and body, with one completion, for every cut of the callbacks |
| Printing.PrintedUpload | stutter/http/parser.cpp:71-125 | a printed request is accepted with its whole body if and only if the body has at most 1 MiB |
| Printing.PlainUpload | stutter/http/request.cpp:146-172 | a POST with a body meets the conditions of the round trip |
| ObjectRoundTrips.ReceiveRequest | stutter/http/parser.cpp:185-192 | a parser object, on any disk, that is given a sendable printed request in any non-empty pieces ends up with exactly that request but for body bytes that the disk did not take: with all of them on a healthy disk or if they fit into memory, with the first 8192 without a disk, and without an error in any case |
| ObjectRoundTrips.ReceiveReply | stutter/http/parser.cpp:185-192 | and with a printed reply it ends up with its code, headers and body, with the same reservation |
| ObjectRoundTrips.ReceiveChunked | stutter/http/parser.cpp:185-192 | with a chunked request it accepts it if and only if it keeps the limits, and then has the bytes of its chunks, with the same reservation |
| ObjectRoundTrips.AddAll | stutter/http/parser.cpp:185-192 | adding pieces one by one leaves the object, up to body bytes lost to the disk, where the callbacks of the run over the whole lead |
| Printing.ReplyRoundTrip | stutter/http/reply.cpp:40-67 | printing a reply and reading it back gives the same code, version, headers and body, with one completion |
| Printing.SentHeadersArrive | stutter/http/reply.cpp:40-58 | reading the headers back over a map they are sent into gives each sent value |
| Printing.PlainMessages | stutter/http/request.cpp:146-172 | a plain GET and a plain reply meet the conditions of the round trips |
| Headers.GetPut | stutter/http/message.cpp:34-38 | a replaced header is found under any case of its name, and no other header changes |
| Headers.HasPut | stutter/http/message.cpp:34-38 | a write adds its name and no other |
| Headers.PutIs | stutter/http/message.cpp:34-38 | a write goes into the entry with that name, which keeps its spelling, or becomes a new entry between two others |
| Headers.PutEntry | stutter/http/message.cpp:34-38 | the entries after a write, with their spellings |
| Headers.DeleteEntry | stutter/http/message.cpp:49-58 | the entries after a removal |
| Headers.GetDelete | stutter/http/message.cpp:49-58 | after a removal the name is gone in any case, and everything else is as before |
| Headers.KeysMeet | stutter/http/message.h:11-17 | two names are one entry if and only if they differ at most in the case of letters |
| Headers.BeforeIs | stutter/http/message.h:11-17 | entries are ordered by the first letter in which they differ, a beginning before its continuations |
| Headers.PutSorted | stutter/http/message.cpp:34-38 | replacing a header keeps the map in the order of its case-insensitive comparison, without double keys |
| Headers.DeleteSorted | stutter/http/message.cpp:49-58 | and so does removing one |
| Headers.LastWins | stutter/http/message.cpp:34-38 | a map filled from a list holds the last value of every name |
| QueryString.FirstWins | stutter/http/request.cpp:52-83 | the query map holds the first value of every name |
| QueryString.NoQuery | stutter/http/request.cpp:52-57 | a URL without a ? has no query |
| QueryString.EveryQuery | stutter/http/request.cpp:52-83 | in a URL with a ? a name has a value if and only if the first stretch between separators that gives the name any value gives it that one |
| QueryString.QueryRoundTrip | stutter/http/request.cpp:52-83 | extracting inverts printing of every list of distinct, non-empty names free of & and =, with values free of & |
| RequestObject.Request.ExtractQueryString | stutter/http/request.cpp:52-83 | the loop over separators computes the first-wins map of the pieces after the first ? |
| RequestObject.Request.InsertPiece | stutter/http/request.cpp:60-78 | one piece is cut at its first =, dropped if its name is empty, and given an empty value without one |
| RequestObject.CutPiece | stutter/http/request.cpp:63-74 | the byte loop finds the cut that the specification of a piece makes |
| RequestObject.NextPiece | stutter/http/request.cpp:55-60 | the byte positions of the loop walk through the pieces of the specification |
| RequestObject.Request.Prepare | stutter/http/request.cpp:146-172 | the prepared bytes start with the method, the URL and the version, written out; they and the body on disk together are the request text; the Host header is the host; a request that awaits 100-continue leaves its body out |
| RequestObject.Request.AddStandardHeaders | stutter/http/request.cpp:149-151 | the Host header is the host, the length is that of the body but for a GET, and every other header is as it was |
| RequestObject.Request.Head | stutter/http/request.cpp:153-161 | the loop prints the request line and the headers in order |
| Printing.RequestHeadersAre | stutter/http/request.cpp:149-161 | of the printed headers of a request Host is its host, Content-Length its size but for a GET, and every other one is there with its value if and only if the request has it |
| Printing.RequestEntries | stutter/http/request.cpp:149-161 | the entries that are printed of the headers of a request, with the spelling of their names: a name that was there keeps its own, a new one has the usual one |
| Printing.RequestTextIs | stutter/http/request.cpp:153-172 | the text of a request as a concatenation of texts |
| Printing.ReplyHeadersAre | stutter/http/reply.cpp:42-58 | of the printed headers of a reply Content-Length is its size, a "chunked" is gone, and every other one is there with its value if and only if the reply has it |
| Printing.ReplyEntries | stutter/http/reply.cpp:42-58 | the same for a reply |
| Printing.ReplyTextIs | stutter/http/reply.cpp:49-66 | the text of a reply as a concatenation of texts, with version, code and phrase in its first line |
| Printing.NoLeadingZero | stutter/http/reply.cpp:51-52 | numbers are printed without leading zeros |
| Printing.FiveMethods | stutter/http/request.cpp:146-172 | for each of GET, POST, PUT, HEAD and DELETE there is a request that meets the conditions of the round trip |
| RequestObject.Request.Reset | stutter/http/request.cpp:135-144 | a reset request is as a fresh one, field by field |
| ReplyObject.Reply.AddStandardHeaders | stutter/http/reply.cpp:42-47 | the length is that of the body, a "chunked" is removed, and every other header is as it was |
| ReplyObject.Reply.Prepare | stutter/http/reply.cpp:40-67 | the prepared bytes start with version, code and phrase, written out, and the end of that line; they and the body on disk together are the reply text |
| ReplyObject.Reply.Head | stutter/http/reply.cpp:49-58 | the loop prints the status line and the headers in order |
| ReplyObject.Reply.Reset | stutter/http/reply.cpp:69-76 | a reset reply is a blank 200 with keep-alive that keeps its version, field by field |
| MessageBase.Message.AddBody | stutter/http/message.cpp:60-73 | all of a body piece is stored, unless the disk fails, and then a beginning of it |
| MessageBase.Message.AddHeader | stutter/http/message.cpp:34-38 | the header map becomes the old one with the value replaced |
| MessageBase.Message.DelHeader | stutter/http/message.cpp:49-58 | the header is removed, and the result says whether it was there |
| MessageBase.Message.Reset | stutter/http/message.cpp:91-97 | headers, data and body are empty |
| MessageBase.DeleteFinds | stutter/http/message.cpp:49-58 | deleting shortens the map by one if and only if the name was there |
| BodyStore.Body.Tiers | stutter/http/body.cpp:39-78 | memory holds the first 8192 bytes of the body, the file the rest, and the size is their sum |
| BodyStore.Body.Add | stutter/http/body.cpp:39-46 | what is reported as added is appended to the body, and nothing else |
| BodyStore.Body.BufferInMemory | stutter/http/body.cpp:69-78 | as much as fits goes to memory |
| BodyStore.Body.BufferOnDisk | stutter/http/body.cpp:95-105 | what the disk takes is appended to the file |
| BodyStore.Body.Clear | stutter/http/body.cpp:48-61 | the body is empty |
| Strategy.SendRaw | stutter/io/strategy.cpp:11-25 | for every schedule of partial writes the wire gets exactly as much of the data as it takes before it fails, and success means all of it |
| Strategy.SendBufferedBody | stutter/io/strategy.cpp:27-46 | the same for the body on disk |
| ParserObject.Parser.SaveLastHeader | stutter/http/parser.cpp:65-90 | a complete header is stored and the limits are checked |
| ParserObject.Parser.OnUrl | stutter/http/parser.cpp:92-103 | a URL piece is appended up to the limit |
| ParserObject.Parser.OnHeaderField | stutter/http/parser.cpp:33-41 | a name piece first saves the header before it |
| ParserObject.Parser.OnHeaderValue | stutter/http/parser.cpp:43-51 | a value piece is appended |
| ParserObject.Parser.OnBody | stutter/http/parser.cpp:120-125 | a body piece is stored unless the body was refused; what the disk does not take is lost without an error |
| ParserObject.Parser.OnMessageComplete | stutter/http/parser.cpp:24-31 | the query is extracted; the method of a request becomes GET, POST, PUT, HEAD or DELETE if it is that one and stays what it was otherwise; a reply gets its code |
| ParserObject.Parser.Deliver | stutter/http/parser.cpp:19-152 | every callback of the object does what the pure receiver does, but for body bytes that the disk does not take |
| ParserObject.Parser.DeliverAll | stutter/http/parser.cpp:19-152 | all callbacks of a call are delivered in order |
| ParserObject.Parser.Add | stutter/http/parser.cpp:185-192 | one call of the parser, and all its callbacks delivered in order; the result is the error, or a failure if bytes were left |
| ParserObject.Parser.Reset | stutter/http/parser.cpp:201-222 | the parser underneath and the fields of the callbacks are as in a new object |
| Pipelining.OneServed | stutter/http/connection.cpp:65-100 | a request that arrives at a fresh connection is answered as it would be alone, and the connection is fresh again |
| Pipelining.CxJoin | stutter/http/connection.cpp:65-100 | what a connection does depends on the joined callbacks only: state, requests served and bytes sent, also when a URL is too long |
| Pipelining.SameReplies | stutter/http/connection.cpp:65-100 | whatever bytes arrive, two ways of cutting their callbacks lead to the same state, the same requests served and the same bytes sent |
| Pipelining.GrammarLeads | stutter/http/joyent/http_parser.c:986-1057 | in every grammatical log a URL comes first in its message |
| Pipelining.ServedInOrder | stutter/http/connection.cpp:65-100 | the handler is called once for each request, in order, with exactly that request |
| Pipelining.StaysReady | stutter/http/connection.cpp:78-86 | requests of version 1.1 that do not ask to close leave the connection ready |
| Pipelining.PipelineRuns | stutter/http/connection.cpp:133-141 | the parser reads a concatenation of sendable printed requests to its end, being reset after each by its own completion callback |
| Pipelining.PipelinedRequests | stutter/http/connection.cpp:133-141 | for every list of sendable requests sent back to back and cut anyhow, everything is read, and the handler sees every request in order as a fresh parser would |
| ConnectionObject.Connection.ProcessError | stutter/http/connection.cpp:46-62 | the status and phrase of each error, in numbers and letters: 413, 414 and 400 |
| Answers.EveryAnswer | stutter/http/connection.cpp:65-100 | every request at a connection, any lines in any order, framing and body, its callbacks cut anyhow: headers that announce more than 1048576 bytes are answered with 413, otherwise a wait for 100-continue with 400, otherwise, if no line breaks a limit, a URL of more than 4096 bytes with 414, and a shorter one is shown to the handler, with one of the five methods, and its reply is sent; the bytes, the state, the version and the Connection header of each answer are written out, for clients of version 1.0 and for those that ask to close; a line that breaks a limit is not made good by a later one |
| Answers.ErrorIs | stutter/http/parser.cpp:65-103 | the error of such a request, by its lines and the length of its URL |
| Answers.OneRequest | stutter/http/connection.cpp:65-100 | however the callbacks of one request are cut, they end in serving what has been received |
| Answers.RefusedWith | stutter/http/connection.cpp:65-86 | how a refusal looks: no body, one header, the version of the client if it is 1.0; the state is then to close or a parse error |
| Answers.AnsweredWith | stutter/http/connection.cpp:65-86 | and what is done to the reply of a handler |
| ServedAnswers.ServeRequest | stutter/http/connection.cpp:133-188 | a connection object that receives one legal request in any pieces, over a wire that takes everything, sends the answer of EveryAnswer and shows the handler exactly that request |
| ServedAnswers.AllOrNothing | stutter/http/connection.cpp:133-148 | wherever the request is cut, either its callbacks are all made or nothing has been completed |
| ConnectionObject.Connection.Reply | stutter/http/connection.cpp:66-86 | the reply is the handler's or the error reply, with version and Connection header for old clients and for clients that ask to close |
| ConnectionObject.Connection.SendHeaders | stutter/http/connection.cpp:111-125 | the wire gets exactly as much of what was prepared as it takes, and success means all of it |
| ConnectionObject.Connection.Send | stutter/http/connection.cpp:102-109 | the wire gets exactly as much of the reply text as it takes, headers and both tiers of the body in order, wherever it fails; success means all of it |
| ConnectionObject.Connection.Process | stutter/http/connection.cpp:65-100 | answer, send and reset, as specified for one request; a send that fails, in the headers or in the body, has sent a proper beginning of the reply, and then the request has been served all the same, nothing is reset and the state is the I/O error |
| ConnectionObject.Connection.Add | stutter/http/connection.cpp:144-145 | the bytes of one read are parsed and every request they complete is answered; if a send fails the connection is not ready any more, the requests up to that one were served in order and the wire holds their replies and a proper beginning of the failing one; after a parse error nothing changes and nothing is sent |
| ConnectionObject.Connection.Exec | stutter/http/connection.cpp:133-188 | the loop ends with the first read after which the connection is not ready, or with the failing read, and has served what the callbacks up to then demand; if a send failed, the requests up to that one were served in order and the wire holds their replies and a proper beginning of the failing one |
| ServedPipeline.PartServed | stutter/http/connection.cpp:65-100 | of a pipeline that has arrived in part, exactly the requests that have arrived whole are served |
| ServedPipeline.ServedMeanwhile | stutter/http/connection.cpp:133-148 | wherever the reads cut the pipeline, the requests that have arrived whole have been served and answered |
| ServedPipeline.ReadyMeanwhile | stutter/http/connection.cpp:133-148 | if none of them asks to close, the connection is ready for more at every cut |
| ServedPipeline.RunGrows | stutter/http/joyent/http_parser.c:580-1853 | callbacks are only ever appended: a longer run extends the callbacks of a shorter one |
| ServedPipeline.ServePipeline | stutter/http/connection.cpp:133-188 | a connection object that receives any pipeline of sendable requests in any pieces, over a wire that takes everything and with healthy disks, gives the handler a beginning of it in order and sends exactly the replies to that; it is all of it unless a request in it asks to close |
| Url.ParseHost | stutter/http/joyent/http_parser.c:1994-2064 | the loop cuts the host region where the host machine says, in 16 bits, and accepts if and only if the machine ends well |
| Url.FindRegions | stutter/http/joyent/http_parser.c:2066-2136 | the loop over the URL finds the offset, the length and the presence of every region, in 16 bits, and whether an @ was seen |
| Url.ParseUrl | stutter/http/joyent/http_parser.c:2066-2163 | as long as the host lies within the first 65535 bytes, a URL of any length is accepted if and only if both machines accept it, a CONNECT URL has exactly a host and a port, and the port has 16 bits; the fields are then the runs of the labels in 16 bits, and so the true runs if and only if every part starts at most at 65535 and is no longer than that; for at most 65535 bytes all this holds |
| Hosts.ParsedIff | stutter/http/joyent/http_parser.c:2066-2163 | which URLs pass both loops, as texts: the targets above whose server is a name or an address in brackets, perhaps with a port, behind user information if and only if it holds an @ |
| Connects.ConnectIff | stutter/http/joyent/http_parser.c:2138-2163 | which targets of CONNECT are accepted, as texts: a host with a port of 16 bits, but for an @ that may stand before it and a question mark and number signs that may follow |
| Connects.MoreThanHostAndPort | stutter/http/joyent/http_parser.c:2144-2147 | so @h:1?# is accepted, although the code says that nothing but a host and a port is |
| Hosts.HostIff | stutter/http/joyent/http_parser.c:1928-2064 | which texts the second loop accepts between schema and path |
| Hosts.HostIsServer | stutter/http/joyent/http_parser.c:2066-2136 | the host region is what stands between the schema and the first slash or question mark |
| Url.HttpParserUrl.DescribesIff | stutter/http/joyent/http_parser.c:2124-2135 | offsets and lengths in 16 bits are the true ones if and only if no part starts behind 65535 or is longer |
| UrlParts.RunIs | stutter/http/joyent/http_parser.c:2124-2135 | a part that is never re-entered is one run of bytes |
| UrlParts.RegionRuns | stutter/http/joyent/http_parser.c:443-578 | the URL machine never comes back to a part that it left |
| UrlParts.HostRuns | stutter/http/joyent/http_parser.c:1928-1990 | nor does the host machine |
| UrlProperties.PartIsRun | stutter/http/joyent/http_parser.c:2066-2163 | the bytes of a part are exactly those that its offset and length name |
| UrlProperties.PartsInOrder | stutter/http/joyent/http_parser.c:2066-2163 | parts come in the order schema, user information, host, port, path, query, fragment |
| UrlProperties.Decomposition | stutter/http/joyent/http_parser.c:2066-2163 | the parts of an accepted URL are not empty, in bounds, disjoint and ordered, and a schema comes with a host |
| UrlProperties.DecompositionBytes | stutter/http/joyent/http_parser.c:2066-2163 | every part holds bytes of its kind, and every byte outside the parts is one of : / @ [ ] ? # |
| UrlProperties.LongPath | stutter/http/joyent/http_parser.c:2124-2135 | a path of any length is accepted, and its stored length is its length modulo 65536: the parts are right if and only if it has at most 65535 bytes |
| UrlProperties.PortExact | stutter/http/joyent/http_parser.c:2149-2161 | the port number is the value of its field except exactly when the URL ends with its port, the memory behind it goes on with a digit, and the digits are not all zeros |
| UrlProperties.PortValue | stutter/http/joyent/http_parser.c:2149-2161 | the port is at most 65535, and it is the value of its field if and only if the field does not end the URL before another digit, or it is zero |
| UrlRoundTrip.PortReadsOn | stutter/http/joyent/http_parser.c:2149-2161 | a URL that says port 8 is given port 80 when a 0 lies behind it in memory |
| UrlRoundTrip.FoundAtInHost | stutter/http/joyent/http_parser.c:2100-2107 | found_at says whether the host region holds an @ |
| UrlRoundTrip.SplitPrinted | stutter/http/joyent/http_parser.c:2066-2163 | splitting a target printed from its components, with a schema, as a path on the server, or as the authority of a CONNECT request, gives back every component and marks exactly those that are there |
| UrlRoundTrip.PrintedAccepted | stutter/http/joyent/http_parser.c:2066-2163 | a printed target of any of the three forms is accepted if and only if its port is at most 65535, when no digit follows it |
| UrlRoundTrip.Forms | stutter/http/joyent/http_parser.c:2066-2163 | targets of the three forms exist |
| Streams.EveryStream | stutter/http/joyent/http_parser.c:580-1853 | every stream: if a beginning of it is read from a fresh parser to a completion that resets the parser, whatever follows, good or bad, is read as by a fresh parser, and its callbacks follow those of the beginning |
| Streams.RunBehind | stutter/http/joyent/http_parser.c:580-1853 | what was called back before a completion changes nothing for the parser and stays as it was |
| Streams.EveryPipeline | stutter/http/joyent/http_parser.c:580-1853 | messages of any kind, each read from a fresh parser to a completion that resets it, are read one behind the other to the last byte, and their callbacks follow each other |
| Machine.RunConcat | stutter/http/joyent/http_parser.c:640-1829 | running a concatenation is running its first part and, if that goes on, the second |
| Machine.RunBody | stutter/http/joyent/http_parser.c:1651-1692 | the bytes of a body read one by one are the bulk read of them |
| Execution.CaseLog | stutter/http/joyent/http_parser.c:92-126 | setting and flushing marks delivers what the reference delivers for the byte |
| Execution.AtMostOneMark | stutter/http/joyent/http_parser.c:1829-1842 | at most one mark is set when a call ends |
| Execution.HttpParser.constructor | stutter/http/joyent/http_parser.c:1905-1914 | an initialised parser with nothing called back |
| Execution.HttpParser.Iterate | stutter/http/joyent/http_parser.c:638-653 | one turn of the byte loop is one step of the reference, or the bulk of a body |
| Execution.HttpParser.RunByte | stutter/http/joyent/http_parser.c:648-653 | dispatching a byte until a case breaks is the reference dispatch |
| Execution.HttpParser.ReadBulk | stutter/http/joyent/http_parser.c:1651-1692 | a bulk read of body bytes is as many single steps |
| Execution.HttpParser.FlushAll | stutter/http/joyent/http_parser.c:1829-1842 | the data still marked at the end of a call is delivered |
| Execution.HttpParser.End | stutter/http/joyent/http_parser.c:598-617 | an empty call ends a message read until end of file and is an error inside a message |
| Execution.HttpParser.NotifyComplete | stutter/http/joyent/http_parser.c:67-85 | the completion callback may initialise the parser again while execute is running |
| Grammar.SwitchFits | stutter/http/joyent/http_parser.c:653-1825 | every case of the switch keeps the phase of the callbacks in step with the state |
| Dispatch.Switch | stutter/http/joyent/http_parser.c:653-1825 | an action keeps the parser type, sets errno if and only if it is an error, dispatches again only towards lower states, and marks and flushes data where the state begins and stops to read it |
| Dispatch.ParseUrlChar | stutter/http/joyent/http_parser.c:443-578 | from any state a URL byte leads to a URL state or to the dead state |
| Dispatch.NewMessage | stutter/http/joyent/http_parser.c:401-405 | after a message comes a start state or the dead state |
| EventLog.PushPieces | stutter/http/joyent/http_parser.c:92-119 | two data callbacks of a kind join to the one callback of both pieces |
| Url.HttpParserUrl.Grow | stutter/http/joyent/http_parser.c:2124-2135 | one byte counted into a part extends its run by one, in 16 bits |

## Left out

- HTTP_BOTH, http_parser_pause, the message_begin callback, the error texts and the non-strict build: variants of the same automaton.
- The 100-continue exchange of a connection: the state that would start it is never assigned (connection.cpp:153-155), and a request that expects it is answered as an error, which is modelled.
- Sockets, libevent, coroutines, threads, processes and logging (server.cpp, coroutine.cpp, io/blocking.cpp, io/yielding.cpp, log.cpp): only contracts for reading, writing and sending a file are kept.
- dispatcher.cpp, pool.cpp and the handlers: a handler is any function, and no theorem depends on how it is found or on which sockets wait.
- client.cpp: the order of its calls; what it reads is covered by the reply round trip. It returns when its socket ends and makes no zero-length call (client.cpp:150-175), so that a reply without a length, which EofCompletes completes, does not complete for it.
- The Linux branch of safe_sendfile, which moves the offset that the sender advances once more.
- Body::set_file, copies of a body that share a file, file names and unlink: the file is its contents.
- MessageRuns.HeaderLinesRead: is for headers of one line each; TwoLineHeader says what a second line does.
- Dispatch.Switch: gives the new fields of a case as a value, which `Execute` then stores; the order of the assignments inside one case is not modelled.
- ParserObject.Parser.Deliver: is called after `Execute` has returned and not from inside it, as the assumptions above explain.
- Accumulators.LengthIff: the larger texts that are accepted with a wrapped value are given digit by digit (LengthTextIff, ShiftIff) and by an example (LengthWraps), not in closed form.
- Url.ParseUrl: says nothing of a URL whose host lies behind its first 65535 bytes, because the wrapped offset makes the second loop read another part of the URL; FindRegions and ParseHost state what the two loops do then.
- ParserObject.Parser.Add: is stated for an owner whose completion function returns true; the connection's function, which may fail, is in Connection.Add.
- StatusLines.StatusLineRead: does not restore the phrase, because the code drops it.
- Reply codes and versions are natural numbers; the code's short and int are not exceeded by the values that the round trip allows.
- ConnectionObject.Connection.constructor: gives the connection healthy disks, because a handler that is given a body with bytes missing may answer anything.
