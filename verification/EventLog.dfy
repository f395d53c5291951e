/** Logs of callbacks.  A data callback may be delivered in any number of pieces; `Join` is the log
    in which adjacent pieces of one kind are joined. */
module EventLog {
  import opened HttpTypes

  type Log = seq<Event>

  ghost predicate EndsWith(log: Log, k: Kind) {
    log != [] && log[|log| - 1].Data? && log[|log| - 1].kind == k
  }

  /** Append one callback, joining it to a data callback of its own kind. */
  function Push(log: Log, e: Event): (r: Log)
    ensures r != []
  {
    if e.Data? && log != [] && log[|log| - 1].Data? && log[|log| - 1].kind == e.kind then
      log[..|log| - 1] + [Data(e.kind, log[|log| - 1].bytes + e.bytes)]
    else
      log + [e]
  }

  function Join(trace: seq<Event>): Log {
    if trace == [] then [] else Push(Join(trace[..|trace| - 1]), trace[|trace| - 1])
  }

  /** Pieces of one kind join to what the whole would have been. */
  lemma PushPieces(log: Log, k: Kind, x: string, y: string)
    ensures Push(Push(log, Data(k, x)), Data(k, y)) == Push(log, Data(k, x + y))
  {
    var l := Push(log, Data(k, x));
    if EndsWith(log, k) {
      var b := log[|log| - 1].bytes;
      assert l[..|l| - 1] == log[..|log| - 1];
      assert (b + x) + y == b + (x + y);
    } else {
      assert l[..|l| - 1] == log;
    }
  }

  /** An empty piece changes nothing after a callback of its own kind. */
  lemma PushNothing(log: Log, k: Kind)
    requires EndsWith(log, k)
    ensures Push(log, Data(k, "")) == log
  {
    assert log[|log| - 1] == Data(k, log[|log| - 1].bytes + "");
  }

  lemma JoinAppend(trace: seq<Event>, e: Event)
    ensures Join(trace + [e]) == Push(Join(trace), e)
  {
    assert (trace + [e])[..|trace|] == trace;
  }

  lemma PushCons(log: Log, k: Kind, s: string)
    requires s != ""
    ensures Push(Push(log, Data(k, [s[0]])), Data(k, s[1..])) == Push(log, Data(k, s))
    ensures EndsWith(Push(log, Data(k, [s[0]])), k)
  {
    PushPieces(log, k, [s[0]], s[1..]);
    assert [s[0]] + s[1..] == s;
  }
}
