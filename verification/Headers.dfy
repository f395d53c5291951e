/** The header map of a message: std::map ordered by strcasecmp, as the sorted sequence of its
    entries in iteration order. */
module Headers {
  import opened Bytes
  import opened MessageRuns

  /** What strcasecmp sees of a string: up to the first NUL, in lower case. */
  function Key(s: string): string {
    LowerString(CString(s))
  }

  function CString(s: string): string
    decreases |s|
  {
    if s == "" || s[0] == '\0' then "" else [s[0]] + CString(s[1..])
  }

  lemma {:induction false} CStringWhole(s: string)
    requires forall i | 0 <= i < |s| :: s[i] != '\0'
    ensures CString(s) == s
    decreases |s|
  {
    if s != "" {
      CStringWhole(s[1..]);
    }
  }

  /** A token is its own C string. */
  lemma TokenKey(s: string)
    requires AllToken(s)
    ensures Key(s) == LowerString(s)
  {
    CStringWhole(s);
  }

  // ---------- The order ----------

  /** strcasecmp(x, y) < 0, on keys. */
  predicate Before(x: string, y: string)
    decreases |x|
  {
    y != "" && (x == "" || x[0] < y[0] || (x[0] == y[0] && Before(x[1..], y[1..])))
  }

  lemma {:induction false} BeforeIrreflexive(x: string)
    ensures !Before(x, x)
    decreases |x|
  {
    if x != "" {
      BeforeIrreflexive(x[1..]);
    }
  }

  lemma {:induction false} BeforeTransitive(x: string, y: string, z: string)
    requires Before(x, y) && Before(y, z)
    ensures Before(x, z)
    decreases |x|
  {
    if x != "" && x[0] == y[0] == z[0] {
      BeforeTransitive(x[1..], y[1..], z[1..]);
    }
  }

  lemma {:induction false} BeforeTotal(x: string, y: string)
    ensures Before(x, y) || x == y || Before(y, x)
    decreases |x|
  {
    if x != "" && y != "" && x[0] == y[0] {
      BeforeTotal(x[1..], y[1..]);
      assert x == [x[0]] + x[1..] && y == [y[0]] + y[1..];
    }
  }

  // ---------- The map ----------

  predicate Sorted(hs: seq<Header>) {
    forall i, j | 0 <= i < j < |hs| :: Before(Key(hs[i].name), Key(hs[j].name))
  }

  /** m_headers[name] = value: an entry keeps the spelling of the name that created it. */
  function Put(hs: seq<Header>, name: string, value: string): seq<Header>
    decreases |hs|
  {
    if hs == [] then [Header(name, value)]
    else if Key(hs[0].name) == Key(name) then [Header(hs[0].name, value)] + hs[1..]
    else if Before(Key(name), Key(hs[0].name)) then [Header(name, value)] + hs
    else [hs[0]] + Put(hs[1..], name, value)
  }

  /** get_header: the value, or an empty one. */
  function Get(hs: seq<Header>, name: string): string
    decreases |hs|
  {
    if hs == [] then ""
    else if Key(hs[0].name) == Key(name) then hs[0].value
    else Get(hs[1..], name)
  }

  /** del_header */
  function Delete(hs: seq<Header>, name: string): seq<Header>
    decreases |hs|
  {
    if hs == [] then []
    else if Key(hs[0].name) == Key(name) then hs[1..]
    else [hs[0]] + Delete(hs[1..], name)
  }

  predicate Has(hs: seq<Header>, name: string) {
    exists i | 0 <= i < |hs| :: Key(hs[i].name) == Key(name)
  }

  /** Every name in `hs` comes after `k`. */
  predicate AllAfter(k: string, hs: seq<Header>) {
    forall i | 0 <= i < |hs| :: Before(k, Key(hs[i].name))
  }

  lemma {:induction false} PutAfter(k: string, hs: seq<Header>, name: string, value: string)
    requires AllAfter(k, hs) && Before(k, Key(name))
    ensures AllAfter(k, Put(hs, name, value))
    decreases |hs|
  {
    hide Key, Before;
    if hs != [] && Key(hs[0].name) != Key(name) && !Before(Key(name), Key(hs[0].name)) {
      PutAfter(k, hs[1..], name, value);
    }
  }

  lemma SortedCons(h: Header, hs: seq<Header>)
    ensures Sorted([h] + hs) <==> Sorted(hs) && AllAfter(Key(h.name), hs)
  {
    hide Key, Before;
    var s := [h] + hs;
    assert forall i | 0 <= i < |hs| :: hs[i] == s[i + 1];
    if Sorted(s) {
      forall i | 0 <= i < |hs| ensures Before(Key(h.name), Key(hs[i].name)) {
        assert Before(Key(s[0].name), Key(s[i + 1].name));
      }
      forall i, j | 0 <= i < j < |hs| ensures Before(Key(hs[i].name), Key(hs[j].name)) {
        assert Before(Key(s[i + 1].name), Key(s[j + 1].name));
      }
    }
    if Sorted(hs) && AllAfter(Key(h.name), hs) {
      forall i, j | 0 <= i < j < |s| ensures Before(Key(s[i].name), Key(s[j].name)) {
        assert s[j] == hs[j - 1];
        if i > 0 {
          assert s[i] == hs[i - 1];
        }
      }
    }
  }

  /** The map stays ordered. */
  lemma {:induction false} PutSorted(hs: seq<Header>, name: string, value: string)
    requires Sorted(hs)
    ensures Sorted(Put(hs, name, value))
    decreases |hs|
  {
    hide Key, Before, Sorted;
    if hs == [] {
      SortedCons(Header(name, value), []);
      assert Sorted([]) by { EmptySorted(); }
      assert [Header(name, value)] + [] == [Header(name, value)];
    } else {
      var h, rest := hs[0], hs[1..];
      assert hs == [h] + rest;
      SortedCons(h, rest);
      if Key(h.name) == Key(name) {
        SortedCons(Header(h.name, value), rest);
      } else if Before(Key(name), Key(h.name)) {
        forall i | 0 <= i < |hs| ensures Before(Key(name), Key(hs[i].name)) {
          if i > 0 {
            BeforeTransitive(Key(name), Key(h.name), Key(rest[i - 1].name));
          }
        }
        SortedCons(Header(name, value), hs);
      } else {
        PutSorted(rest, name, value);
        BeforeTotal(Key(name), Key(h.name));
        PutAfter(Key(h.name), rest, name, value);
        SortedCons(h, Put(rest, name, value));
      }
    }
  }

  lemma EmptySorted()
    ensures Sorted([])
  {
  }

  lemma {:induction false} DeleteSorted(hs: seq<Header>, name: string)
    requires Sorted(hs)
    ensures Sorted(Delete(hs, name))
    ensures forall i | 0 <= i < |Delete(hs, name)| :: Delete(hs, name)[i] in hs
    decreases |hs|
  {
    hide Key, Before, Sorted;
    if hs != [] {
      assert hs == [hs[0]] + hs[1..];
      SortedCons(hs[0], hs[1..]);
      DeleteSorted(hs[1..], name);
      var d := Delete(hs[1..], name);
      forall i | 0 <= i < |d| ensures Before(Key(hs[0].name), Key(d[i].name)) {
        assert d[i] in hs[1..];
      }
      SortedCons(hs[0], d);
    }
  }

  /** What is read after a write: the value for that name, in any spelling, and everything else as before. */
  lemma {:induction false} GetPut(hs: seq<Header>, name: string, value: string, other: string)
    requires Sorted(hs)
    ensures Get(Put(hs, name, value), other) == if Key(other) == Key(name) then value else Get(hs, other)
    decreases |hs|
  {
    hide Key, Before, Sorted;
    if hs != [] {
      assert hs == [hs[0]] + hs[1..];
      SortedCons(hs[0], hs[1..]);
      GetPut(hs[1..], name, value, other);
    }
  }

  /** A write adds its name, unless an entry has it in some spelling: that entry keeps its spelling. */
  lemma {:induction false} HasPut(hs: seq<Header>, name: string, value: string, other: string)
    ensures Has(Put(hs, name, value), other) <==> Key(other) == Key(name) || Has(hs, other)
    decreases |hs|
  {
    hide Key, Before;
    var p := Put(hs, name, value);
    if hs == [] {
      HasCons(Header(name, value), [], other);
      assert p == [Header(name, value)] + [];
    } else {
      HasCons(hs[0], hs[1..], other);
      assert hs == [hs[0]] + hs[1..];
      if Key(hs[0].name) == Key(name) {
        HasCons(Header(hs[0].name, value), hs[1..], other);
      } else if Before(Key(name), Key(hs[0].name)) {
        HasCons(Header(name, value), hs, other);
      } else {
        HasPut(hs[1..], name, value, other);
        HasCons(hs[0], Put(hs[1..], name, value), other);
      }
    }
  }

  lemma HasCons(h: Header, hs: seq<Header>, name: string)
    ensures Has([h] + hs, name) <==> Key(h.name) == Key(name) || Has(hs, name)
  {
    hide Key;
    var s := [h] + hs;
    if Key(h.name) == Key(name) {
      assert Key(s[0].name) == Key(name);
    }
    if Has(hs, name) {
      var i :| 0 <= i < |hs| && Key(hs[i].name) == Key(name);
      assert s[i + 1] == hs[i];
    }
    if Has(s, name) {
      var i :| 0 <= i < |s| && Key(s[i].name) == Key(name);
      assert i > 0 ==> hs[i - 1] == s[i];
    }
  }

  /** Where a write goes: into the entry with that name, which keeps its spelling, or between two entries. */
  lemma {:induction false} PutIs(hs: seq<Header>, name: string, value: string) returns (k: nat)
    requires Sorted(hs)
    ensures k <= |hs|
    ensures if Has(hs, name)
            then k < |hs| && Key(hs[k].name) == Key(name) && Put(hs, name, value) == hs[k := Header(hs[k].name, value)]
            else Put(hs, name, value) == hs[..k] + [Header(name, value)] + hs[k..]
    decreases |hs|
  {
    hide Key, Before, Sorted, Has, AllAfter;
    NoneHas(name);
    k := 0;
    if hs != [] {
      var h, rest := hs[0], hs[1..];
      assert hs == [h] + rest;
      SortedCons(h, rest);
      HasCons(h, rest, name);
      if Key(h.name) == Key(name) {
        assert hs[0 := Header(h.name, value)] == [Header(h.name, value)] + rest;
      } else if Before(Key(name), Key(h.name)) {
        AfterAll(h, rest, name);
      } else {
        k := PutIs(rest, name, value);
        PutFurther(h, rest, name, value, k);
        k := k + 1;
      }
    }
  }

  /** The name under which a write to `name` is found. */
  predicate SpelledAs(hs: seq<Header>, name: string, spelling: string) {
    if Has(hs, name) then exists i | 0 <= i < |hs| :: hs[i].name == spelling && Key(spelling) == Key(name) else spelling == name
  }

  lemma OneEntry(hs: seq<Header>, i: nat, j: nat)
    requires Sorted(hs) && i < |hs| && j < |hs| && Key(hs[i].name) == Key(hs[j].name)
    ensures i == j
  {
    hide Key, Before;
    BeforeIrreflexive(Key(hs[i].name));
  }

  /** The entries after a write. */
  lemma PutEntry(hs: seq<Header>, name: string, value: string, h: Header)
    requires Sorted(hs)
    ensures h in Put(hs, name, value) <==>
              if Key(h.name) == Key(name) then h.value == value && SpelledAs(hs, name, h.name) else h in hs
  {
    hide Key, Before, Sorted, Put;
    var k := PutIs(hs, name, value);
    var p := Put(hs, name, value);
    if Has(hs, name) {
      forall i | 0 <= i < |hs| && Key(hs[i].name) == Key(name) ensures i == k {
        OneEntry(hs, i, k);
      }
      assert p[k] == Header(hs[k].name, value) && forall i | 0 <= i < |hs| && i != k :: p[i] == hs[i];
    } else {
      assert p == hs[..k] + [Header(name, value)] + hs[k..];
      assert hs == hs[..k] + hs[k..];
      if h in hs {
        var i :| 0 <= i < |hs| && hs[i] == h;
        assert Key(h.name) != Key(name);
      }
    }
  }

  /** A write leaves the spelling of other names alone. */
  lemma SpellingKept(hs: seq<Header>, name: string, value: string, other: string, spelling: string)
    requires Sorted(hs) && Key(other) != Key(name)
    ensures SpelledAs(Put(hs, name, value), other, spelling) <==> SpelledAs(hs, other, spelling)
  {
    hide Key, Put, Has, Sorted;
    HasPut(hs, name, value, other);
    var p := Put(hs, name, value);
    if i :| 0 <= i < |hs| && hs[i].name == spelling && Key(spelling) == Key(other) {
      PutEntry(hs, name, value, hs[i]);
      var j :| 0 <= j < |p| && p[j] == hs[i];
    }
    if j :| 0 <= j < |p| && p[j].name == spelling && Key(spelling) == Key(other) {
      PutEntry(hs, name, value, p[j]);
      var i :| 0 <= i < |hs| && hs[i] == p[j];
    }
  }

  lemma NoneHas(name: string)
    ensures !Has([], name)
  {
  }

  lemma PutFurther(h: Header, rest: seq<Header>, name: string, value: string, k: nat)
    requires k <= |rest| && Key(h.name) != Key(name) && !Before(Key(name), Key(h.name))
    requires if Has(rest, name) then k < |rest| && Put(rest, name, value) == rest[k := Header(rest[k].name, value)]
             else Put(rest, name, value) == rest[..k] + [Header(name, value)] + rest[k..]
    ensures var hs := [h] + rest;
      if Has(rest, name) then Put(hs, name, value) == hs[k + 1 := Header(rest[k].name, value)] && hs[k + 1] == rest[k]
      else Put(hs, name, value) == hs[..k + 1] + [Header(name, value)] + hs[k + 1..]
  {
    hide Key, Before, Has;
    assert ([h] + rest)[1..] == rest;
    if Has(rest, name) {
      UpdateCons(h, rest, k, Header(rest[k].name, value));
    } else {
      InsertCons(h, rest, k, Header(name, value));
    }
  }

  lemma UpdateCons(h: Header, rest: seq<Header>, k: nat, x: Header)
    requires k < |rest|
    ensures [h] + rest[k := x] == ([h] + rest)[k + 1 := x] && ([h] + rest)[k + 1] == rest[k]
  {
  }

  lemma InsertCons(h: Header, rest: seq<Header>, k: nat, x: Header)
    requires k <= |rest|
    ensures [h] + (rest[..k] + [x] + rest[k..]) == ([h] + rest)[..k + 1] + [x] + ([h] + rest)[k + 1..]
  {
  }

  lemma AfterAll(h: Header, rest: seq<Header>, name: string)
    requires AllAfter(Key(h.name), rest) && Before(Key(name), Key(h.name))
    ensures !Has(rest, name)
  {
    hide Key, Before;
    forall i | 0 <= i < |rest| ensures Key(rest[i].name) != Key(name) {
      BeforeTransitive(Key(name), Key(h.name), Key(rest[i].name));
      BeforeIrreflexive(Key(name));
    }
  }

  /** After a removal the name is gone, and everything else is as before. */
  lemma {:induction false} GetDelete(hs: seq<Header>, name: string, other: string)
    requires Sorted(hs)
    ensures Has(Delete(hs, name), other) <==> Key(other) != Key(name) && Has(hs, other)
    ensures Get(Delete(hs, name), other) == if Key(other) == Key(name) then "" else Get(hs, other)
    decreases |hs|
  {
    hide Key, Before, Sorted;
    if hs != [] {
      var h, rest := hs[0], hs[1..];
      assert hs == [h] + rest;
      SortedCons(h, rest);
      HasCons(h, rest, other);
      if Key(h.name) == Key(name) {
        NotAfterItself(rest, name);
        NoneIsEmpty(rest, other);
        if Key(other) == Key(name) {
          SameHas(rest, name, other);
        }
      } else {
        GetDelete(rest, name, other);
        HasCons(h, Delete(rest, name), other);
      }
    }
  }

  lemma NotAfterItself(hs: seq<Header>, name: string)
    requires AllAfter(Key(name), hs)
    ensures !Has(hs, name)
  {
    hide Key, Before;
    BeforeIrreflexive(Key(name));
  }

  lemma SameHas(hs: seq<Header>, name: string, other: string)
    requires Key(other) == Key(name)
    ensures Has(hs, name) == Has(hs, other)
  {
    hide Key;
  }

  lemma {:induction false} NoneIsEmpty(hs: seq<Header>, name: string)
    ensures !Has(hs, name) ==> Get(hs, name) == ""
    decreases |hs|
  {
    hide Key;
    if hs != [] {
      HasCons(hs[0], hs[1..], name);
      assert hs == [hs[0]] + hs[1..];
      NoneIsEmpty(hs[1..], name);
    }
  }

  /** The entries after a removal. */
  lemma {:induction false} DeleteEntry(hs: seq<Header>, name: string, h: Header)
    requires Sorted(hs)
    ensures h in Delete(hs, name) <==> h in hs && Key(h.name) != Key(name)
    decreases |hs|
  {
    hide Key, Before, Sorted;
    if hs != [] {
      var rest := hs[1..];
      assert hs == [hs[0]] + rest;
      SortedCons(hs[0], rest);
      if Key(hs[0].name) == Key(name) {
        forall i | 0 <= i < |rest| ensures Key(rest[i].name) != Key(name) {
          BeforeIrreflexive(Key(name));
        }
      } else {
        DeleteEntry(rest, name, h);
      }
    }
  }

  lemma SpellingLeft(hs: seq<Header>, name: string, other: string, spelling: string)
    requires Sorted(hs) && Key(other) != Key(name)
    ensures SpelledAs(Delete(hs, name), other, spelling) <==> SpelledAs(hs, other, spelling)
  {
    hide Key, Delete, Has, Sorted;
    GetDelete(hs, name, other);
    var d := Delete(hs, name);
    if i :| 0 <= i < |hs| && hs[i].name == spelling && Key(spelling) == Key(other) {
      DeleteEntry(hs, name, hs[i]);
      var j :| 0 <= j < |d| && d[j] == hs[i];
    }
    if j :| 0 <= j < |d| && d[j].name == spelling && Key(spelling) == Key(other) {
      DeleteEntry(hs, name, d[j]);
      var i :| 0 <= i < |hs| && hs[i] == d[j];
    }
  }

  // ---------- What the order means ----------

  /** Two names are one entry if and only if they differ at most in the case of letters. */
  lemma KeysMeet(s: string, t: string)
    requires AllToken(s) && AllToken(t)
    ensures Key(s) == Key(t) <==> |s| == |t| && forall i | 0 <= i < |s| :: ToLower(s[i]) == ToLower(t[i])
  {
    TokenKey(s);
    TokenKey(t);
    if Key(s) == Key(t) {
      assert |LowerString(s)| == |LowerString(t)|;
      assert forall i | 0 <= i < |s| :: LowerString(s)[i] == LowerString(t)[i];
    }
  }

  lemma SameStart(x: string, y: string, k: nat)
    requires 0 < k <= |x| && k <= |y| && x[..k] == y[..k]
    ensures x[0] == y[0]
  {
    assert x[..k][0] == y[..k][0];
  }

  /** Entries come in the order of their first different letters, a beginning before its continuations. */
  lemma {:induction false} BeforeIs(x: string, y: string)
    ensures Before(x, y) <==> exists k | 0 <= k <= |x| && k < |y| :: x[..k] == y[..k] && (k < |x| ==> x[k] < y[k])
    decreases |x|
  {
    if x == "" || y == "" || x[0] != y[0] {
      if Before(x, y) {
        assert x[..0] == y[..0];
      }
      if y != "" && x != "" && x[0] > y[0] {
        forall k | 0 <= k <= |x| && k < |y| && x[..k] == y[..k] ensures k < |x| && x[k] > y[k] {
          if k > 0 {
            SameStart(x, y, k);
          }
        }
      }
    } else {
      BeforeIs(x[1..], y[1..]);
      if exists k | 0 <= k <= |x[1..]| && k < |y[1..]| :: x[1..][..k] == y[1..][..k] && (k < |x[1..]| ==> x[1..][k] < y[1..][k]) {
        var k :| 0 <= k <= |x[1..]| && k < |y[1..]| && x[1..][..k] == y[1..][..k] && (k < |x[1..]| ==> x[1..][k] < y[1..][k]);
        assert x[..k + 1] == [x[0]] + x[1..][..k] && y[..k + 1] == [y[0]] + y[1..][..k];
      }
      if exists k | 0 <= k <= |x| && k < |y| :: x[..k] == y[..k] && (k < |x| ==> x[k] < y[k]) {
        var k :| 0 <= k <= |x| && k < |y| && x[..k] == y[..k] && (k < |x| ==> x[k] < y[k]);
        assert k > 0;
        assert x[1..][..k - 1] == x[..k][1..] && y[1..][..k - 1] == y[..k][1..];
      }
    }
  }

  // ---------- Lists of headers ----------

  function PutAll(hs: seq<Header>, more: seq<Header>): seq<Header>
    decreases |more|
  {
    if more == [] then hs else PutAll(Put(hs, more[0].name, more[0].value), more[1..])
  }

  /** The last value given to a name, or the one it had before. */
  function LastValue(before: string, more: seq<Header>, name: string): string
    decreases |more|
  {
    if more == [] then before
    else if Key(more[|more| - 1].name) == Key(name) then more[|more| - 1].value
    else LastValue(before, more[..|more| - 1], name)
  }

  lemma {:induction false} PutAllAppend(hs: seq<Header>, more: seq<Header>, h: Header)
    ensures PutAll(hs, more + [h]) == Put(PutAll(hs, more), h.name, h.value)
    decreases |more|
  {
    hide Put;
    if more == [] {
      assert [h][1..] == [];
    } else {
      assert (more + [h])[1..] == more[1..] + [h];
      PutAllAppend(Put(hs, more[0].name, more[0].value), more[1..], h);
    }
  }

  /** Reassembled headers are the case-insensitive last-wins map of their list. */
  lemma {:induction false} LastWins(hs: seq<Header>, more: seq<Header>, name: string)
    requires Sorted(hs)
    ensures Sorted(PutAll(hs, more))
    ensures Get(PutAll(hs, more), name) == LastValue(Get(hs, name), more, name)
    decreases |more|
  {
    hide Put, Get, Sorted, Key;
    if more != [] {
      var h := more[|more| - 1];
      LastWins(hs, more[..|more| - 1], name);
      assert more == more[..|more| - 1] + [h];
      PutAllAppend(hs, more[..|more| - 1], h);
      PutSorted(PutAll(hs, more[..|more| - 1]), h.name, h.value);
      GetPut(PutAll(hs, more[..|more| - 1]), h.name, h.value, name);
    }
  }

  /** An entry that comes after all others is put at the end. */
  lemma {:induction false} PutLast(hs: seq<Header>, h: Header)
    requires forall i | 0 <= i < |hs| :: Before(Key(hs[i].name), Key(h.name))
    ensures Put(hs, h.name, h.value) == hs + [h]
    decreases |hs|
  {
    hide Key, Before;
    if hs != [] {
      assert Before(Key(hs[0].name), Key(h.name));
      BeforeIrreflexive(Key(h.name));
      if Before(Key(h.name), Key(hs[0].name)) {
        BeforeTransitive(Key(hs[0].name), Key(h.name), Key(hs[0].name));
        BeforeIrreflexive(Key(hs[0].name));
      }
      PutLast(hs[1..], h);
      assert [hs[0]] + (hs[1..] + [h]) == hs + [h];
    }
  }

  /** Putting the entries of a map into an empty one in their order rebuilds it. */
  lemma {:induction false} PutAllSorted(hs: seq<Header>)
    requires Sorted(hs)
    ensures PutAll([], hs) == hs
    decreases |hs|
  {
    hide Key, Before, Put;
    if hs != [] {
      var front, h := hs[..|hs| - 1], hs[|hs| - 1];
      assert hs == front + [h];
      assert Sorted(front);
      PutAllSorted(front);
      PutAllAppend([], front, h);
      PutLast(front, h);
    }
  }
}
