/** The two-tier body store: the first bytes in memory, the rest in a temporary file. */
module BodyStore {

  const MAX_BUFFER_SIZE: nat := 8192

  function Min(a: nat, b: nat): nat {
    if a < b then a else b
  }

  /** What the disk does: it takes what is written to it, if only in parts; it cannot even hold a file;
      or it may fail at any time. */
  datatype Disk = Healthy | Missing | Flaky

  /** The part of a text that fits into memory. */
  function Front(s: string): string {
    s[..Min(|s|, MAX_BUFFER_SIZE)]
  }

  class Body {
    var data: string
    var size: nat

    /** Whether the temporary file exists, and what has been written to it. */
    var open: bool
    var file: string

    const disk: Disk

    ghost predicate Valid()
      reads this
    {
      && |data| <= MAX_BUFFER_SIZE
      && (file != "" ==> |data| == MAX_BUFFER_SIZE && open)
      && size == |data| + |file|
      && (disk.Missing? ==> !open && file == "")
    }

    function Contents(): string
      reads this
    {
      data + file
    }

    constructor (d: Disk)
      ensures Valid() && Contents() == "" && disk == d
    {
      data, size, open, file := "", 0, false, "";
      disk := d;
    }

    /** How the bytes are divided: memory holds the first MAX_BUFFER_SIZE of them. */
    lemma Tiers()
      requires Valid()
      ensures data == Contents()[..Min(|Contents()|, MAX_BUFFER_SIZE)]
      ensures file == Contents()[Min(|Contents()|, MAX_BUFFER_SIZE)..]
      ensures size == |Contents()| && size - |data| == |file|
      ensures |data| == if size < 8192 then size else 8192
    {
    }

    method Add(p: string) returns (added: int)
      requires Valid()
      modifies this
      ensures Valid() && added <= |p|
      ensures added > 0 ==> Contents() == old(Contents()) + p[..added]
      ensures added <= 0 ==> Contents() == old(Contents())
      ensures old(|data|) < MAX_BUFFER_SIZE ==> added == Min(|p|, MAX_BUFFER_SIZE - old(|data|))
      ensures old(|data|) == MAX_BUFFER_SIZE && disk.Healthy? && p != "" ==> added > 0
      ensures old(|data|) == MAX_BUFFER_SIZE && disk.Missing? ==> added < 0
    {
      if |data| == MAX_BUFFER_SIZE {
        added := BufferOnDisk(p);
      } else {
        added := BufferInMemory(p);
      }
    }

    method BufferInMemory(p: string) returns (insert: nat)
      requires Valid() && |data| < MAX_BUFFER_SIZE
      modifies this
      ensures Valid() && insert == Min(|p|, MAX_BUFFER_SIZE - old(|data|))
      ensures Contents() == old(Contents()) + p[..insert]
    {
      var avail := MAX_BUFFER_SIZE - |data|;
      insert := if |p| > avail then avail else |p|;
      data := data + p[..insert];
      size := size + insert;
    }

    /** mkstemp may fail. */
    method CreateFile() returns (ok: bool)
      requires Valid()
      modifies this`open
      ensures ok == open && Valid() && (disk.Healthy? ==> ok) && (disk.Missing? ==> !ok)
    {
      if open {
        return true;
      }
      ok :| (disk.Healthy? ==> ok) && (disk.Missing? ==> !ok);
      open := ok;
    }

    /** write may fail or write less than it was given. */
    method BufferOnDisk(p: string) returns (ret: int)
      requires Valid() && |data| == MAX_BUFFER_SIZE
      modifies this
      ensures Valid() && ret <= |p| && data == old(data)
      ensures ret > 0 ==> Contents() == old(Contents()) + p[..ret]
      ensures ret <= 0 ==> Contents() == old(Contents())
      ensures disk.Healthy? && p != "" ==> ret > 0
      ensures disk.Missing? ==> ret < 0
    {
      var ok := CreateFile();
      if !ok {
        return -1;
      }
      ret :| -1 <= ret <= |p| && (disk.Healthy? && p != "" ==> ret > 0);
      if ret > 0 {
        file := file + p[..ret];
        size := size + ret;
      }
    }

    method Clear()
      requires Valid()
      modifies this
      ensures Valid() && Contents() == ""
    {
      data, size, open, file := "", 0, false, "";
    }

    function SizeOnDisk(): int
      reads this
    {
      size - |data|
    }
  }
}
