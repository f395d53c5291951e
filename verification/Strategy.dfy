/** The senders: loops over partial writes. */
module Strategy {
  import opened BodyStore

  /** A socket.  A write takes part of what it is given, or fails.  `room` is what the network holds in
      store: how many more bytes it takes before it fails, in writes of any sizes. */
  class Wire {
    var out: string
    var room: nat

    method SafeWrite(data: string) returns (ret: int)
      requires data != ""
      modifies this
      ensures if old(room) == 0 then -1 <= ret <= 0 else 1 <= ret <= Min(|data|, old(room))
      ensures var n := if ret > 0 then ret else 0; out == old(out) + data[..n] && room == old(room) - n
    {
      if room == 0 {
        ret :| -1 <= ret <= 0;
      } else {
        ret :| 1 <= ret <= |data| && ret <= room;
        out := out + data[..ret];
        room := room - ret;
      }
    }

    /** sendfile from the body's temporary file; the offset is left to the caller. */
    method SafeSendfile(body: Body, offset: nat, count: nat) returns (ret: int)
      requires 0 < count && offset + count <= |body.file|
      modifies this
      ensures if old(room) == 0 then -1 <= ret <= 0 else 1 <= ret <= Min(count, old(room))
      ensures var n := if ret > 0 then ret else 0; out == old(out) + body.file[offset..offset + n] && room == old(room) - n
    {
      if room == 0 {
        ret :| -1 <= ret <= 0;
      } else {
        ret :| 1 <= ret <= count && ret <= room;
        out := out + body.file[offset..offset + ret];
        room := room - ret;
      }
    }

    /** Settles whether the next `size` bytes reach the other side; if not, it may fail anywhere in them. */
    method Foresee(reaches: bool, size: nat)
      requires size > 0
      modifies this`room
      ensures reaches <==> size <= room
    {
      if reaches {
        var more: nat :| 0 <= more;
        room := size + more;
      } else {
        var less: nat :| less < size;
        room := less;
      }
    }

    constructor (r: nat)
      ensures out == "" && room == r
    {
      out, room := "", r;
    }
  }

  /** What a wire with this much room takes of the data. */
  function Taken(data: string, room: nat): string {
    data[..Min(|data|, room)]
  }

  lemma TakeMore(s: string, a: nat, b: nat)
    requires a <= b <= |s|
    ensures s[..a] + s[a..b] == s[..b] && s[a..][..b - a] == s[a..b]
  {
  }

  /** send_raw */
  method SendRaw(wire: Wire, data: string) returns (ok: bool)
    modifies wire
    ensures ok <==> |data| <= old(wire.room)
    ensures wire.out == old(wire.out) + if ok then data else data[..old(wire.room)]
    ensures wire.out == old(wire.out) + Taken(data, old(wire.room))
    ensures wire.room == old(wire.room) - |Taken(data, old(wire.room))|
  {
    var done := 0;
    while done != |data|
      invariant 0 <= done <= |data| && wire.out == old(wire.out) + data[..done]
      invariant done <= old(wire.room) && wire.room == old(wire.room) - done
      decreases |data| - done
    {
      var ret := wire.SafeWrite(data[done..]);
      if ret <= 0 {
        return false;
      }
      TakeMore(data, done, done + ret);
      done := done + ret;
    }
    return true;
  }

  /** send_buffered_body: the part of a body that is on disk. */
  method SendBufferedBody(wire: Wire, body: Body) returns (ok: bool)
    requires body.Valid()
    modifies wire
    ensures ok <==> |body.file| <= old(wire.room)
    ensures wire.out == old(wire.out) + if ok then body.file else body.file[..old(wire.room)]
    ensures wire.out == old(wire.out) + Taken(body.file, old(wire.room))
    ensures wire.room == old(wire.room) - |Taken(body.file, old(wire.room))|
  {
    if !body.open {
      assert wire.out == old(wire.out) + body.file;
      return true;
    }
    var remain := body.SizeOnDisk();
    var offset := 0;
    while remain > 0
      invariant 0 <= offset <= |body.file| && remain == |body.file| - offset
      invariant wire.out == old(wire.out) + body.file[..offset]
      invariant offset <= old(wire.room) && wire.room == old(wire.room) - offset
      decreases remain
    {
      var sent := wire.SafeSendfile(body, offset, remain);
      if sent <= 0 {
        return false;
      }
      TakeMore(body.file, offset, offset + sent);
      offset := offset + sent;
      remain := remain - sent;
    }
    return true;
  }
}
