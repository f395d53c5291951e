/** Chunked coding (section 3.6.1 of RFC 2616): decoding undoes encoding. */
module Chunked {
  import opened Bytes
  import opened HttpTypes
  import opened Dispatch
  import opened EventLog
  import opened Machine
  import opened Recognisers
  import opened HeaderLines
  import opened Accumulators
  import opened MessageRuns

  /** A chunk as it is sent: the text of its size, an optional extension, and its bytes. */
  datatype Chunk = Chunk(size: string, extension: string, data: string)

  predicate LegalExtension(s: string) {
    && (s != "" ==> s[0] == ';' || s[0] == ' ')
    && forall i | 0 <= i < |s| :: s[i] != CR
  }

  predicate LegalSizeLine(size: string, extension: string, n: nat) {
    && size != "" && AllHex(size) && HexValue(size) == n < ULLONG_MAX
    && LegalExtension(extension)
    && |size| + |extension| + 2 <= HTTP_MAX_HEADER_SIZE
  }

  predicate LegalChunk(c: Chunk) {
    LegalSizeLine(c.size, c.extension, |c.data|) && c.data != ""
  }

  function Encode(c: Chunk): string {
    c.size + c.extension + Crlf() + c.data + Crlf()
  }

  function EncodeAll(cs: seq<Chunk>): string {
    if cs == [] then "" else Encode(cs[0]) + EncodeAll(cs[1..])
  }

  /** The body that a list of chunks carries. */
  function Payload(cs: seq<Chunk>): string {
    if cs == [] then "" else cs[0].data + Payload(cs[1..])
  }

  // ---------- Size lines ----------

  lemma SizeLineByte(resets: Policy, m: Machine, ch: char, s: State)
    requires m.f.flags.chunked && m.f.nread < HTTP_MAX_HEADER_SIZE
    requires || (m.f.state.ChunkSize? && (ch == ';' || ch == ' ') && s.ChunkParameters?)
             || (m.f.state.ChunkParameters? && ch != CR && s.ChunkParameters?)
             || ((m.f.state.ChunkSize? || m.f.state.ChunkParameters?) && ch == CR && s.ChunkSizeAlmostDone?)
    ensures Step(resets, m, ch) == (m.(f := To(Counted(m.f), s)), Going)
  {
    hide Switch;
    Opened(Counted(m.f), ch);
    CrNotHex();
    StepBreak(resets, m, ch);
  }

  lemma {:induction false} ParametersRead(resets: Policy, m: Machine, s: string) returns (m': Machine)
    requires m.f.state.ChunkParameters? && m.f.flags.chunked && m.f.nread + |s| <= HTTP_MAX_HEADER_SIZE
    requires forall i | 0 <= i < |s| :: s[i] != CR
    ensures Reads(resets, m, s, m')
    ensures m' == m.(f := m.f.(nread := m.f.nread + |s|))
    decreases |s|
  {
    hide Step, Reads, Run;
    if s == "" {
      m' := m;
      ReadsNothing(resets, m);
    } else {
      SizeLineByte(resets, m, s[0], ChunkParameters);
      var m1 := m.(f := Counted(m.f));
      m' := ParametersRead(resets, m1, s[1..]);
      ReadsCons(resets, m, m1, s, m');
    }
  }

  lemma ExtensionRead(resets: Policy, m: Machine, s: string) returns (m': Machine)
    requires m.f.state.ChunkSize? && m.f.flags.chunked && LegalExtension(s) && m.f.nread + |s| <= HTTP_MAX_HEADER_SIZE
    ensures Reads(resets, m, s, m')
    ensures m' == m.(f := m.f.(state := m'.f.state, nread := m.f.nread + |s|))
    ensures m'.f.state.ChunkSize? || m'.f.state.ChunkParameters?
  {
    hide Step, Reads, Run;
    if s == "" {
      m' := m;
      ReadsNothing(resets, m);
    } else {
      SizeLineByte(resets, m, s[0], ChunkParameters);
      var m1 := m.(f := To(Counted(m.f), ChunkParameters));
      m' := ParametersRead(resets, m1, s[1..]);
      ReadsCons(resets, m, m1, s, m');
    }
  }

  /** The parser after a size line. */
  function Sized(f: Fields, n: nat): Fields {
    if n == 0 then f.(nread := 0, contentLength := 0, flags := f.flags.(trailing := true), state := HeaderFieldStart)
    else f.(nread := 0, contentLength := n, state := ChunkData)
  }

  lemma SizeLf(resets: Policy, m: Machine)
    requires m.f.state.ChunkSizeAlmostDone? && m.f.flags.chunked && m.f.nread < HTTP_MAX_HEADER_SIZE
    ensures Step(resets, m, LF) == (m.(f := Sized(m.f, m.f.contentLength)), Going)
  {
    hide Switch;
    Opened(Counted(m.f), LF);
    StepBreak(resets, m, LF);
  }

  lemma SizeLineRead(resets: Policy, m: Machine, size: string, extension: string, n: nat) returns (m': Machine)
    requires m.f.state.ChunkSizeStart? && m.f.flags.chunked && m.f.nread == 0 && LegalSizeLine(size, extension, n)
    ensures Reads(resets, m, size + extension + Crlf(), m')
    ensures m' == m.(f := Sized(m.f, n))
  {
    hide Step, Reads, Run, AllHex, HexValue, LegalExtension;
    var m1 := SizeExact(resets, m, size);
    var m2 := ExtensionRead(resets, m1, extension);
    SizeLineByte(resets, m2, CR, ChunkSizeAlmostDone);
    var m3 := m2.(f := To(Counted(m2.f), ChunkSizeAlmostDone));
    SizeLf(resets, m3);
    m' := m3.(f := Sized(m3.f, n));
    ReadsOne(resets, m3, LF);
    assert Crlf()[1..] == [LF];
    ReadsCons(resets, m2, m3, Crlf(), m');
    ReadsConcat(resets, m, size, m1, extension, m2);
    ReadsConcat(resets, m, size + extension, m2, Crlf(), m');
  }

  // ---------- Chunks ----------

  lemma ChunkEndByte(resets: Policy, m: Machine, ch: char, g: Fields)
    requires m.f.flags.chunked
    requires || (m.f.state.ChunkDataAlmostDone? && m.f.contentLength == 0 && ch == CR && g == To(m.f, ChunkDataDone))
             || (m.f.state.ChunkDataDone? && ch == LF && g == m.f.(nread := 0, state := ChunkSizeStart))
    ensures Step(resets, m, ch) == (m.(f := g), Going)
  {
    hide Switch;
    Opened(m.f, ch);
  }

  /** A whole chunk: its bytes become data, and the parser is ready for the next one. */
  lemma ChunkRead(resets: Policy, m: Machine, c: Chunk) returns (m': Machine)
    requires m.f.state.ChunkSizeStart? && m.f.flags.chunked && m.f.nread == 0 && LegalChunk(c)
    ensures Reads(resets, m, Encode(c), m')
    ensures m' == Machine(m.f.(contentLength := 0), Push(m.log, Data(OnBody, c.data)))
  {
    hide Step, Reads, Push, AllHex, HexValue, LegalExtension;
    var m1 := SizeLineRead(resets, m, c.size, c.extension, |c.data|);
    RunBody(resets, m1, c.data, |c.data|);
    assert c.data[..|c.data|] == c.data;
    var log := Push(m.log, Data(OnBody, c.data));
    var m2 := Machine(m.f.(contentLength := 0, state := ChunkDataAlmostDone), log);
    assert Reads(resets, m1, c.data, m2) by { WholeBody(resets, m1, c.data, m2); }
    hide Run;
    var m3 := m2.(f := To(m2.f, ChunkDataDone));
    m' := Machine(m.f.(contentLength := 0), log);
    ChunkEndByte(resets, m2, CR, m3.f);
    ChunkEndByte(resets, m3, LF, m'.f);
    ReadsOne(resets, m3, LF);
    assert Crlf()[1..] == [LF];
    ReadsCons(resets, m2, m3, Crlf(), m');
    ReadsConcat(resets, m, c.size + c.extension + Crlf(), m1, c.data, m2);
    ReadsConcat(resets, m, c.size + c.extension + Crlf() + c.data, m2, Crlf(), m');
  }

  lemma WholeBody(resets: Policy, m: Machine, s: string, m': Machine)
    requires Run(resets, m, s) == After(|s|, Run(resets, m', s[|s|..]))
    ensures Reads(resets, m, s, m')
  {
    hide Step;
    assert s[|s|..] == "";
  }

  /** Data that continues a body, unless there is none. */
  function MoreBody(log: Log, s: string): Log {
    if s == "" then log else Push(log, Data(OnBody, s))
  }

  lemma MoreBodyTwice(log: Log, s: string, t: string)
    ensures MoreBody(MoreBody(log, s), t) == MoreBody(log, s + t)
  {
    hide Push;
    PushPieces(log, OnBody, s, t);
    if t == "" { assert s + t == s; }
    if s == "" { assert s + t == t; }
  }

  predicate LegalChunks(cs: seq<Chunk>) {
    forall i | 0 <= i < |cs| :: LegalChunk(cs[i])
  }

  lemma {:induction false} ChunksRead(resets: Policy, m: Machine, cs: seq<Chunk>) returns (m': Machine)
    requires m.f.state.ChunkSizeStart? && m.f.flags.chunked && m.f.nread == 0 && LegalChunks(cs)
    ensures Reads(resets, m, EncodeAll(cs), m')
    ensures m' == Machine(m.f.(contentLength := m'.f.contentLength), MoreBody(m.log, Payload(cs)))
    decreases |cs|
  {
    hide Step, Reads, Run, Push, LegalChunk, Encode;
    if cs == [] {
      m' := m;
      ReadsNothing(resets, m);
    } else {
      var m1 := ChunkRead(resets, m, cs[0]);
      assert m1.log == MoreBody(m.log, cs[0].data) by { NotEmpty(cs[0]); }
      m' := ChunksRead(resets, m1, cs[1..]);
      ReadsConcat(resets, m, Encode(cs[0]), m1, EncodeAll(cs[1..]), m');
      MoreBodyTwice(m.log, cs[0].data, Payload(cs[1..]));
    }
  }

  lemma NotEmpty(c: Chunk)
    requires LegalChunk(c)
    ensures c.data != ""
  {
  }

  // ---------- The end of a chunked body ----------

  lemma ChunksHaveAnEnd(f: Fields)
    requires f.flags.chunked
    ensures NewMessage(f) == NextState(f.typ, f.httpMajor, f.httpMinor, f.flags)
  {
  }

  lemma LfEndsTrailers(f: Fields)
    requires f.state.HeadersAlmostDone? && f.flags.trailing
    ensures Switch(f, LF) == Complete(To(f, NewMessage(f)))
  {
    hide Switch, NewMessage;
    Opened(f, LF);
  }

  lemma TrailersDispatched(resets: Policy, m: Machine)
    requires m.f.state.HeadersAlmostDone? && m.f.flags.trailing && m.f.flags.chunked
    ensures Dispatched(resets, m, LF)
         == (Completed(resets, Machine(To(m.f, NextState(m.f.typ, m.f.httpMajor, m.f.httpMinor, m.f.flags)), m.log)), Going)
  {
    hide Switch, NewMessage, Completed, NextState;
    LfEndsTrailers(m.f);
    ChunksHaveAnEnd(m.f);
  }

  /** The empty line behind the trailers completes the message. */
  lemma TrailerEnd(resets: Policy, m: Machine, end: string) returns (m': Machine)
    requires AtLineStart(m.f.state) && m.f.flags.trailing && m.f.flags.chunked && LineEnd(end)
    requires m.f.nread + |end| <= HTTP_MAX_HEADER_SIZE
    ensures Reads(resets, m, end, m')
    ensures m'.log == m.log + [MessageComplete(SnapshotOf(m.f))]
    ensures resets(m'.log) ==> m'.f == Init(m.f.typ)
    ensures !resets(m'.log) ==>
              m'.f.state == NextState(m.f.typ, m.f.httpMajor, m.f.httpMinor, m.f.flags) && m'.f.nread == m.f.nread + |end|
  {
    hide Step, Reads, Run, Dispatched, Push, Completed, NextState;
    var m1 := if end == "\n" then m else m.(f := Counted(m.f).(state := HeadersAlmostDone));
    var m2 := m.(f := Counted(m1.f).(state := HeadersAlmostDone));
    TrailersDispatched(resets, m2);
    var next := Machine(To(m2.f, NextState(m.f.typ, m.f.httpMajor, m.f.httpMinor, m.f.flags)), m.log);
    m' := Completed(resets, next);
    CompletedLog(resets, next);
    if end == "\n" {
      LoneLf(resets, m);
      ReadsOne(resets, m, LF);
      assert end == [LF];
    } else {
      var m0 := LastCr(resets, m);
      CountedStep(resets, m1);
      ReadsOne(resets, m1, LF);
      assert end == [CR, LF] && end[1..] == [LF];
      ReadsCons(resets, m, m1, end, m');
    }
  }

  lemma CountedStep(resets: Policy, m: Machine)
    requires m.f.state.HeadersAlmostDone? && m.f.nread < HTTP_MAX_HEADER_SIZE
    ensures Step(resets, m, LF) == Dispatched(resets, m.(f := Counted(m.f)), LF)
  {
    hide Dispatched;
  }

  /** Chunks, the last chunk, trailing fields and the empty line. */
  function ChunkedBody(cs: seq<Chunk>, zero: string, extension: string, trailers: seq<Header>): string {
    EncodeAll(cs) + (zero + extension + Crlf()) + Lines(trailers) + Crlf()
  }

  predicate LegalChunkedBody(cs: seq<Chunk>, zero: string, extension: string, trailers: seq<Header>) {
    && LegalChunks(cs) && LegalSizeLine(zero, extension, 0)
    && LegalHeaders(trailers) && |Lines(trailers)| + 2 <= HTTP_MAX_HEADER_SIZE
  }

  /** Decoding inverts encoding: whatever the chunks, their size texts and extensions, the body data is
      their bytes, the trailing fields follow, and one completion ends the message. */
  lemma ChunkedBodyRead(resets: Policy, m: Machine, cs: seq<Chunk>, zero: string, extension: string, trailers: seq<Header>)
    returns (m': Machine)
    requires m.f.state.ChunkSizeStart? && m.f.flags.chunked && m.f.nread == 0 && !EndsWith(m.log, OnHeaderField)
    requires LegalChunkedBody(cs, zero, extension, trailers)
    ensures Reads(resets, m, ChunkedBody(cs, zero, extension, trailers), m')
    ensures m'.log == MoreBody(m.log, Payload(cs)) + HeaderEvents(trailers) + [MessageComplete(SnapshotOf(m.f))]
    ensures resets(m'.log) ==> m'.f == Init(m.f.typ)
    ensures !resets(m'.log) ==>
              && m'.f.state == NextState(m.f.typ, m.f.httpMajor, m.f.httpMinor, BlockFlags(m.f.flags.(trailing := true), trailers))
              && m'.f.nread == |Lines(trailers)| + 2
  {
    hide Step, Reads, Run, LegalChunks, LegalSizeLine, LegalHeaders, BlockLength, BlockFlags, NextState;
    CrlfEnds();
    hide Crlf;
    var m1 := ChunksRead(resets, m, cs);
    MoreBodyEnds(m.log, Payload(cs));
    hide MoreBody, Push;
    var m2 := SizeLineRead(resets, m1, zero, extension, 0);
    var m3 := HeaderBlock(resets, m2, trailers);
    BlockTrailing(m2.f.flags, trailers);
    m' := TrailerEnd(resets, m3, Crlf());
    var line := zero + extension + Crlf();
    ReadsConcat(resets, m, EncodeAll(cs), m1, line, m2);
    ReadsConcat(resets, m, EncodeAll(cs) + line, m2, Lines(trailers), m3);
    ReadsConcat(resets, m, EncodeAll(cs) + line + Lines(trailers), m3, Crlf(), m');
  }

  lemma MoreBodyEnds(log: Log, s: string)
    requires !EndsWith(log, OnHeaderField)
    ensures !EndsWith(MoreBody(log, s), OnHeaderField)
  {
  }

  lemma {:induction false} BlockTrailing(flags: Flags, hs: seq<Header>)
    ensures var r := BlockFlags(flags, hs); r.trailing == flags.trailing && r.skipBody == flags.skipBody && (flags.chunked ==> r.chunked)
    decreases |hs|
  {
    hide Classify, IsLiteral;
    if hs != [] {
      BlockTrailing(LineFlags(flags, Classify(hs[0].name), hs[0].value), hs[1..]);
    }
  }

  /** A message whose headers say chunked is decoded as chunks, whatever Content-Length they also carry
      (section 4.4 of RFC 2616). */
  lemma ChunkedMessage(resets: Policy, m: Machine, hs: seq<Header>, cs: seq<Chunk>, zero: string, extension: string,
                       trailers: seq<Header>) returns (m': Machine)
    requires m.f.state.HeaderFieldStart? && m.f.flags == NO_FLAGS && m.f.contentLength == ULLONG_MAX && !m.f.verb.CONNECT?
    requires LegalHeaders(hs) && BlockFlags(NO_FLAGS, hs).chunked && !BlockFlags(NO_FLAGS, hs).upgrade
    requires !EndsWith(m.log, OnHeaderField) && m.f.nread + |Lines(hs)| + 2 <= HTTP_MAX_HEADER_SIZE
    requires LegalChunkedBody(cs, zero, extension, trailers)
    ensures Reads(resets, m, Lines(hs) + Crlf() + ChunkedBody(cs, zero, extension, trailers), m')
    ensures m'.log == m.log + HeaderEvents(hs) + [HeadersComplete(Framing.Chunked)] + BodyEvents(Payload(cs))
                      + HeaderEvents(trailers) + [MessageComplete(SnapshotOf(m.f))]
    ensures resets(m'.log) ==> m'.f == Init(m.f.typ)
    ensures !resets(m'.log) ==>
              && m'.f.state == NextState(m.f.typ, m.f.httpMajor, m.f.httpMinor,
                                         BlockFlags(BlockFlags(NO_FLAGS, hs).(trailing := true), trailers))
              && m'.f.nread == |Lines(trailers)| + 2
  {
    hide Step, Reads, Run, LegalHeaders, LegalChunkedBody, ChunkedBody, BlockLength, Crlf, Payload, NextState;
    var m1 := HeaderBlock(resets, m, hs);
    BlockTrailing(NO_FLAGS, hs);
    hide BlockFlags;
    CrlfEnds();
    var m2 := HeadEnd(resets, m1, Crlf());
    ReadsConcat(resets, m, Lines(hs), m1, Crlf(), m2);
    PushHeadersComplete(m1.log, Framing.Chunked);
    m' := ChunkedBodyRead(resets, m2, cs, zero, extension, trailers);
    ReadsConcat(resets, m, Lines(hs) + Crlf(), m2, ChunkedBody(cs, zero, extension, trailers), m');
    assert MoreBody(m2.log, Payload(cs)) == m2.log + BodyEvents(Payload(cs));
  }
}
