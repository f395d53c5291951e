/** http::Reply */
module ReplyObject {
  import opened Bytes
  import opened HeaderLines
  import opened StatusLines
  import opened MessageRuns
  import opened Headers
  import opened BodyStore
  import opened MessageBase
  import opened Receiver
  import opened Printing
  import opened RequestObject

  const CONNECTION_NAME := "Connection"
  const KEEP_ALIVE := "keep-alive"

  /** A reply that has been reset; its version stays what it was. */
  function BlankReply(major: nat, minor: nat): OutgoingReply {
    OutgoingReply(major, minor, 200, "OK", [Header(CONNECTION_NAME, KEEP_ALIVE)], "")
  }

  class Reply {
    /** The base class subobject. */
    const msg: MessageBase.Message
    var code: nat
    var major: nat
    var minor: nat
    var status: string

    ghost predicate Valid()
      reads this, msg, msg.body
    {
      msg.Valid()
    }

    function Outgoing(): OutgoingReply
      reads this, msg, msg.body
    {
      OutgoingReply(major, minor, code, status, msg.headers, msg.body.Contents())
    }

    constructor (disk: Disk)
      ensures Valid() && fresh(msg) && fresh(msg.body) && msg.body.disk == disk
      ensures Outgoing() == BlankReply(1, 1)
    {
      msg := new MessageBase.Message(disk);
      major, minor, code, status := 1, 1, 200, "OK";
      new;
      Reset();
    }

    method SetStatus(c: nat, s: string)
      modifies this`code, this`status
      ensures code == c && status == s
    {
      code, status := c, s;
    }

    method SetHttpVersion(a: nat, b: nat)
      modifies this`major, this`minor
      ensures major == a && minor == b
    {
      major, minor := a, b;
    }

    method Reset()
      requires Valid()
      modifies this, msg, msg.body
      ensures Valid() && Outgoing() == BlankReply(old(major), old(minor))
      ensures code == 200 && status == "OK" && major == old(major) && minor == old(minor)
      ensures msg.headers == [Header("Connection", "keep-alive")] && msg.body.Contents() == ""
    {
      msg.Reset();
      SetStatus(200, "OK");
      msg.AddHeader(CONNECTION_NAME, KEEP_ALIVE);
    }

    /** The text of the status line and the headers. */
    method Head() returns (ss: string)
      ensures ss == ResponseHead(major, minor, code, status, msg.headers)
    {
      hide Lines, Line, StatusLine, Crlf;
      ss := StatusLine(major, minor, code, status);
      var i := 0;
      NoLines();
      assert msg.headers[..0] == [];
      assert ss + "" == ss;
      while i < |msg.headers|
        invariant 0 <= i <= |msg.headers| && ss == StatusLine(major, minor, code, status) + Lines(msg.headers[..i])
      {
        LinesMore(msg.headers, i);
        ss := ss + Line(msg.headers[i]);
        i := i + 1;
      }
      assert msg.headers[..i] == msg.headers;
      ss := ss + Crlf();
    }

    /** The headers that prepare removes and sets. */
    method AddStandardHeaders()
      requires Valid()
      modifies msg`headers
      ensures Valid() && msg.headers == ReplyHeaders(old(Outgoing()))
      ensures msg.GetHeader("Content-Length") == SizeText(|msg.body.Contents()|)
      ensures forall name :: Key(name) != "content-length" && Key(name) != "transfer-encoding" ==>
                msg.GetHeader(name) == old(msg.GetHeader(name))
    {
      hide Put, Delete, Sorted, SizeText, Get, Key, Has, ReplyHeaders;
      ghost var p := Outgoing();
      forall name {
        ReplyHeadersAre(p, name);
      }
      StandardNames();
      ReplyHeadersAre(p, "Content-Length");
      ReplyPuts(p);
      msg.body.Tiers();
      if msg.GetHeader(TRANSFER_ENCODING_NAME) == "chunked" {
        var found := msg.DelHeader(TRANSFER_ENCODING_NAME);
      }
      msg.AddHeader(CONTENT_LENGTH_NAME, SizeText(msg.body.size));
    }

    /** prepare: the bytes to send before the part of the body that is on disk. */
    method Prepare()
      requires Valid()
      modifies msg
      ensures Valid() && msg.headers == ReplyHeaders(old(Outgoing()))
      ensures msg.data + msg.body.file == ReplyText(old(Outgoing())) && msg.data != ""
      ensures FirstLine(major, minor, code, status) <= msg.data
    {
      hide Sorted, ResponseHead, Key, ReplyHeaders, FirstLine;
      ghost var p := Outgoing();
      AddStandardHeaders();
      msg.data := "";
      var headers := Head();
      HeadNotEmpty(major, minor, code, status, msg.headers);
      ReplyBegins(major, minor, code, status, msg.headers);
      msg.data := headers + msg.body.data;
      assert msg.body.Contents() == p.body;
      assert headers + msg.body.data + msg.body.file == headers + (msg.body.data + msg.body.file);
    }
  }

  lemma HeadNotEmpty(major: nat, minor: nat, code: nat, phrase: string, hs: seq<Header>)
    ensures ResponseHead(major, minor, code, phrase, hs) != ""
  {
    hide Lines, StatusLine;
  }

  lemma ReplyPuts(p: OutgoingReply)
    ensures var hs := if Get(p.headers, TRANSFER_ENCODING_NAME) == "chunked" then Delete(p.headers, TRANSFER_ENCODING_NAME) else p.headers;
      ReplyHeaders(p) == Put(hs, CONTENT_LENGTH_NAME, SizeText(|p.body|))
  {
    hide Put, Delete, SizeText, Get;
  }

  lemma ReplyBegins(major: nat, minor: nat, code: nat, phrase: string, hs: seq<Header>)
    ensures FirstLine(major, minor, code, phrase) <= ResponseHead(major, minor, code, phrase, hs)
  {
    hide Lines, Decimal;
    assert Crlf() == "\r\n";
  }
}
