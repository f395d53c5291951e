/** The network may cut the stream anywhere.  Feeding pieces one call after another is the one call
    on the whole stream: same fields, same joined log, same stopping place, same error. */
module Fragmentation {
  import opened HttpTypes
  import opened EventLog
  import opened Machine
  import opened Invariant
  import opened Grammar
  import opened Execution

  function Concat(ss: seq<string>): string {
    if ss == [] then "" else ss[0] + Concat(ss[1..])
  }

  predicate NonEmpty(ss: seq<string>) {
    forall i | 0 <= i < |ss| :: ss[i] != ""
  }

  lemma {:induction false} ConcatAppend(ss: seq<string>, ts: seq<string>)
    ensures Concat(ss + ts) == Concat(ss) + Concat(ts)
    decreases |ss|
  {
    if ss == [] {
      assert ss + ts == ts;
    } else {
      assert (ss + ts)[1..] == ss[1..] + ts;
      ConcatAppend(ss[1..], ts);
      assert ss[0] + (Concat(ss[1..]) + Concat(ts)) == Concat(ss) + Concat(ts);
    }
  }

  lemma ConcatLast(ss: seq<string>, i: nat)
    requires i < |ss|
    ensures Concat(ss[..i + 1]) == Concat(ss[..i]) + ss[i]
  {
    assert ss[..i + 1] == ss[..i] + [ss[i]];
    ConcatAppend(ss[..i], [ss[i]]);
    assert Concat([ss[i]]) == ss[i] + Concat([ss[i]][1..]);
  }

  /** One piece ends and the next begins after `n` bytes. */
  ghost predicate Boundary(pieces: seq<string>, n: nat) {
    exists i | 0 < i < |pieces| :: |Concat(pieces[..i])| == n
  }

  /** The calls of `Feed` on the reference machine. */
  function Calls(resets: Policy, m: Machine, pieces: seq<string>): Ran
    decreases |pieces|
  {
    if pieces == [] then Ran(m, 0, Going)
    else
      var r := Run(resets, m, pieces[0]);
      if r.n < |pieces[0]| || |pieces| == 1 then r else After(r.n, Calls(resets, r.m, pieces[1..]))
  }

  /** Feeding pieces until a call reads less than it was given, as the callers in this repository do. */
  method Feed(parser: HttpParser, pieces: seq<string>) returns (total: nat)
    requires parser.Valid() && parser.errno == HPE_OK && NonEmpty(pieces)
    modifies parser
    ensures parser.Valid()
    ensures var c := Calls(parser.resets, old(parser.Abstract()), pieces);
      && total == c.n
      && (if c.verdict.Failed? then parser.Fields() == c.m.f && parser.errno != HPE_OK && Unsent(Join(parser.trace), c.m.log)
          else parser.Abstract() == c.m)
    ensures var r := Run(parser.resets, old(parser.Abstract()), Concat(pieces));
      && (r.verdict.Going? || (r.verdict.Left? && r.n == |Concat(pieces)|) ==>
            total == |Concat(pieces)| && parser.Abstract() == r.m)
      && (r.verdict.Failed? ==>
            total == r.n && parser.Fields() == r.m.f && parser.errno != HPE_OK && Unsent(Join(parser.trace), r.m.log))
      && (r.verdict.Left? ==> r.n <= total && ((total == r.n && parser.Abstract() == r.m) || Boundary(pieces, r.n)))
  {
    hide Push, Join, Unsent, Inv, Run;
    ghost var m0, whole := parser.Abstract(), Concat(pieces);
    ghost var r := Run(parser.resets, m0, whole);
    RunNothing(parser.resets, m0);
    total := 0;
    var i := 0;
    assert pieces[0..] == pieces;
    while i < |pieces|
      invariant 0 <= i <= |pieces| && parser.Valid() && parser.errno == HPE_OK
      invariant total == |Concat(pieces[..i])|
      invariant var c := Calls(parser.resets, m0, pieces);
        if i < |pieces| then c == After(total, Calls(parser.resets, parser.Abstract(), pieces[i..]))
        else c.n == total && c.m == parser.Abstract() && !c.verdict.Failed?
      invariant Run(parser.resets, m0, Concat(pieces[..i])) == Ran(parser.Abstract(), total, Going)
             || (r.verdict.Left? && r.n <= total && (r.n == |whole| ==> total == r.n && parser.Abstract() == r.m)
                 && ((total == r.n && parser.Abstract() == r.m && (i < |pieces| ==> Boundary(pieces, r.n))) || Boundary(pieces, r.n)))
    {
      var n := parser.Execute(pieces[i]);
      assert pieces[i..][0] == pieces[i] && pieces[i..][1..] == pieces[i + 1..];
      FeedOne(parser.resets, m0, pieces, i);
      total := total + n;
      if n < |pieces[i]| {
        return;
      }
      i := i + 1;
    }
    assert pieces[..i] == pieces;
  }

  /** How the run of the whole continues over piece `i`. */
  lemma FeedOne(resets: Policy, m0: Machine, pieces: seq<string>, i: nat)
    requires i < |pieces| && NonEmpty(pieces)
    ensures var s := Concat(pieces[..i]);
      var p := Run(resets, m0, s);
      var e := Run(resets, p.m, pieces[i]);
      && Concat(pieces[..i + 1]) == s + pieces[i]
      && |s| + |pieces[i]| <= |Concat(pieces)|
      && (i + 1 < |pieces| ==> |s| + |pieces[i]| < |Concat(pieces)|)
      && (p.verdict.Going? ==>
            && Run(resets, m0, Concat(pieces[..i + 1])) == After(|s|, e)
            && (!e.verdict.Going? ==> Run(resets, m0, Concat(pieces)) == After(|s|, e)))
  {
    hide Run;
    ConcatLast(pieces, i);
    assert pieces == pieces[..i + 1] + pieces[i + 1..];
    ConcatAppend(pieces[..i + 1], pieces[i + 1..]);
    RunConcat(resets, m0, Concat(pieces[..i]), pieces[i]);
    RunConcat(resets, m0, Concat(pieces[..i + 1]), Concat(pieces[i + 1..]));
  }

  /** However a stream is cut, the calls on its pieces are the one call on the whole, unless that call
      returned early because of an upgrade. */
  lemma {:induction false} CallsAreOneRun(resets: Policy, m: Machine, pieces: seq<string>)
    requires NonEmpty(pieces)
    requires var r := Run(resets, m, Concat(pieces)); r.verdict.Left? ==> r.n == |Concat(pieces)|
    ensures Calls(resets, m, pieces) == Run(resets, m, Concat(pieces))
    decreases |pieces|
  {
    hide Run;
    RunNothing(resets, m);
    if pieces != [] {
      var rest := pieces[1..];
      RunConcat(resets, m, pieces[0], Concat(rest));
      var r := Run(resets, m, pieces[0]);
      if |pieces| == 1 {
        assert Concat(pieces) == pieces[0];
      } else {
        assert Concat(rest) == rest[0] + Concat(rest[1..]);
        if r.verdict.Going? {
          CallsAreOneRun(resets, r.m, rest);
        }
      }
    }
  }

  /** Two ways of cutting one stream cannot be told apart, unless it is left early for an upgrade. */
  lemma FragmentationIndependence(resets: Policy, m: Machine, one: seq<string>, other: seq<string>)
    requires NonEmpty(one) && NonEmpty(other) && Concat(one) == Concat(other)
    requires var r := Run(resets, m, Concat(one)); r.verdict.Left? ==> r.n == |Concat(one)|
    ensures Calls(resets, m, one) == Calls(resets, m, other)
  {
    hide Run, Calls;
    CallsAreOneRun(resets, m, one);
    CallsAreOneRun(resets, m, other);
  }

  lemma UnsentFits(sent: Log, log: Log)
    requires Unsent(sent, log) && !PhaseOf(log).Wrong?
    ensures !PhaseOf(sent).Wrong?
  {
    hide PhaseOf, Push, NextPhase;
    if sent != log {
      var k: Kind, s: string :| log == Push(sent, Data(k, s));
      PhasePush(sent, Data(k, s));
      if PhaseOf(sent).Wrong? {
        WrongStays(PhaseOf(sent), Data(k, s));
      }
    }
  }

  /** What each call with data keeps: the callbacks as they were made obey the grammar at every moment,
      whatever the calls before it did and even if the call fails. */
  lemma CallFits(resets: Policy, before: Machine, data: string, after: Machine, n: nat)
    requires data != "" && Executed(resets, before, data, after, n) && !PhaseOf(before.log).Wrong?
    requires before.f.errno == HPE_OK ==> Inv(before.f) && Fits(before.f, PhaseOf(before.log))
    ensures !PhaseOf(after.log).Wrong?
    ensures after.f.errno == HPE_OK ==> Fits(after.f, PhaseOf(after.log))
  {
    hide Run, Inv, Fits, PhaseOf, Push, NextPhase;
    if before.f.errno == HPE_OK {
      RunFits(resets, before, data);
      var r := Run(resets, before, data);
      if r.verdict.Failed? {
        UnsentFits(after.log, r.m.log);
      }
    }
  }

  /** And so for the callbacks in the pieces in which they were delivered. */
  lemma TraceFits(trace: seq<Event>)
    requires !PhaseOf(Join(trace)).Wrong?
    ensures Grammatical(trace)
  {
    hide PhaseOf, Join;
    PhaseJoin(trace);
    AtEveryMoment(trace);
  }
}
