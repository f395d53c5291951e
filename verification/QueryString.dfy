/** What the query string of a URL means. */
module QueryString {
  import opened Bytes

  type Query = map<string, string>

  /** The first index of `c` at or after `from`, or the length. */
  function IndexFrom(s: string, c: char, from: nat): (i: nat)
    requires from <= |s|
    ensures from <= i <= |s| && (i < |s| ==> s[i] == c)
    ensures forall k | from <= k < i :: s[k] != c
    decreases |s| - from
  {
    if from == |s| || s[from] == c then from else IndexFrom(s, c, from + 1)
  }

  function Index(s: string, c: char): nat {
    IndexFrom(s, c, 0)
  }

  predicate Free(s: string, c: char) {
    forall i | 0 <= i < |s| :: s[i] != c
  }

  /** The pieces between separators. */
  function Pieces(s: string, c: char): seq<string>
    decreases |s|
  {
    var i := Index(s, c);
    if i == |s| then [s] else [s[..i]] + Pieces(s[i + 1..], c)
  }

  /** The name and value of a piece: cut at the first '=', dropped if that leaves no name, and with an
      empty value if there is none. */
  function PairOf(piece: string): Option<(string, string)> {
    var i := Index(piece, '=');
    if i == |piece| then Some((piece, ""))
    else if i == 0 then None
    else Some((piece[..i], piece[i + 1..]))
  }

  /** std::map::insert, which keeps what is there. */
  function Insert(q: Query, p: Option<(string, string)>): Query {
    if p.None? || p.value.0 in q then q else q[p.value.0 := p.value.1]
  }

  function InsertAll(q: Query, pieces: seq<string>): Query
    decreases |pieces|
  {
    if pieces == [] then q else InsertAll(Insert(q, PairOf(pieces[0])), pieces[1..])
  }

  /** The query string of a URL, added to what is there. */
  function QueryOf(q: Query, url: string): Query {
    var i := Index(url, '?');
    if i == |url| then q else InsertAll(q, Pieces(url[i + 1..], '&'))
  }

  /** The value that the first piece with that name gives it. */
  function FirstValue(pieces: seq<string>, name: string): Option<string>
    decreases |pieces|
  {
    if pieces == [] then None
    else
      var p := PairOf(pieces[0]);
      if p.Some? && p.value.0 == name then Some(p.value.1) else FirstValue(pieces[1..], name)
  }

  /** Names map to their first values, and nothing else is a name. */
  lemma {:induction false} FirstWins(q: Query, pieces: seq<string>, name: string)
    ensures var r := InsertAll(q, pieces);
      if name in q then name in r && r[name] == q[name]
      else
        var v := FirstValue(pieces, name);
        (name in r <==> v.Some?) && (v.Some? ==> r[name] == v.value)
    decreases |pieces|
  {
    hide PairOf;
    if pieces != [] {
      FirstWins(Insert(q, PairOf(pieces[0])), pieces[1..], name);
    }
  }

  // ---------- Printing ----------

  datatype Param = Param(name: string, value: string)

  function PrintParam(p: Param): string {
    p.name + "=" + p.value
  }

  function PrintParams(ps: seq<Param>): string
    requires ps != []
    decreases |ps|
  {
    if |ps| == 1 then PrintParam(ps[0]) else PrintParam(ps[0]) + "&" + PrintParams(ps[1..])
  }

  predicate LegalParam(p: Param) {
    p.name != "" && Free(p.name, '&') && Free(p.name, '=') && Free(p.value, '&')
  }

  predicate LegalParams(ps: seq<Param>) {
    && (forall i | 0 <= i < |ps| :: LegalParam(ps[i]))
    && forall i, j | 0 <= i < j < |ps| :: ps[i].name != ps[j].name
  }

  lemma IndexOfFirst(s: string, c: char, t: string)
    requires Free(s, c)
    ensures Index(s + [c] + t, c) == |s|
  {
    var w := s + [c] + t;
    assert w[|s|] == c;
    assert forall k | 0 <= k < |s| :: w[k] == s[k];
  }

  lemma IndexOfNone(s: string, c: char)
    requires Free(s, c)
    ensures Index(s, c) == |s|
  {
  }

  lemma PrintedPair(p: Param)
    requires LegalParam(p)
    ensures PairOf(PrintParam(p)) == Some((p.name, p.value)) && Free(PrintParam(p), '&')
  {
    IndexOfFirst(p.name, '=', p.value);
    var s := PrintParam(p);
    assert s == p.name + ['='] + p.value;
    assert s[..|p.name|] == p.name && s[|p.name| + 1..] == p.value;
    forall i | 0 <= i < |s| ensures s[i] != '&' {
      if i > |p.name| {
        assert s[i] == p.value[i - |p.name| - 1];
      }
    }
  }

  function Printed(ps: seq<Param>): seq<string> {
    seq(|ps|, i requires 0 <= i < |ps| => PrintParam(ps[i]))
  }

  lemma {:induction false} PrintedPieces(ps: seq<Param>)
    requires ps != [] && forall i | 0 <= i < |ps| :: LegalParam(ps[i])
    ensures Pieces(PrintParams(ps), '&') == Printed(ps)
    decreases |ps|
  {
    hide LegalParam, PairOf, PrintParam;
    var s := PrintParam(ps[0]);
    PrintedPair(ps[0]);
    if |ps| == 1 {
      IndexOfNone(s, '&');
      assert Printed(ps) == [s];
    } else {
      var t := PrintParams(ps[1..]);
      IndexOfFirst(s, '&', t);
      var w := s + ['&'] + t;
      assert w == PrintParams(ps);
      assert w[..|s|] == s && w[|s| + 1..] == t;
      PrintedPieces(ps[1..]);
      assert Printed(ps) == [s] + Printed(ps[1..]);
    }
  }

  function AsMap(ps: seq<Param>): Query
    decreases |ps|
  {
    if ps == [] then map[] else AsMap(ps[1..])[ps[0].name := ps[0].value]
  }

  lemma {:induction false} InsertPrinted(q: Query, ps: seq<Param>)
    requires LegalParams(ps) && forall i | 0 <= i < |ps| :: ps[i].name !in q
    ensures InsertAll(q, Printed(ps)) == q + AsMap(ps)
    decreases |ps|
  {
    hide LegalParam, PairOf, PrintParam;
    if ps == [] {
      assert Printed(ps) == [];
      assert q + AsMap(ps) == q;
    } else {
      PrintedPair(ps[0]);
      assert Printed(ps)[0] == PrintParam(ps[0]);
      assert Printed(ps)[1..] == Printed(ps[1..]);
      var q1 := q[ps[0].name := ps[0].value];
      InsertPrinted(q1, ps[1..]);
      AsMapKeys(ps[1..]);
      assert q1 + AsMap(ps[1..]) == q + AsMap(ps);
    }
  }

  lemma {:induction false} AsMapKeys(ps: seq<Param>)
    ensures forall k | k in AsMap(ps) :: exists i | 0 <= i < |ps| :: ps[i].name == k
    decreases |ps|
  {
    if ps != [] {
      AsMapKeys(ps[1..]);
      forall k | k in AsMap(ps) ensures exists i | 0 <= i < |ps| :: ps[i].name == k {
        if k == ps[0].name {
          assert ps[0].name == k;
        } else {
          assert k in AsMap(ps[1..]);
          var i :| 0 <= i < |ps[1..]| && ps[1..][i].name == k;
          assert ps[i + 1].name == k;
        }
      }
    }
  }

  /** Reading a printed parameter list gives back its parameters. */
  lemma QueryRoundTrip(path: string, ps: seq<Param>)
    requires Free(path, '?') && ps != [] && LegalParams(ps)
    ensures QueryOf(map[], path + "?" + PrintParams(ps)) == AsMap(ps)
  {
    hide LegalParam;
    var url := path + "?" + PrintParams(ps);
    assert url == path + ['?'] + PrintParams(ps);
    IndexOfFirst(path, '?', PrintParams(ps));
    assert url[|path| + 1..] == PrintParams(ps);
    PrintedPieces(ps);
    InsertPrinted(map[], ps);
    assert map[] + AsMap(ps) == AsMap(ps);
  }

  // ---------- The query of any URL ----------

  /** Without a question mark there is nothing to extract. */
  lemma NoQuery(q: Query, url: string)
    requires Free(url, '?')
    ensures QueryOf(q, url) == q
  {
    IndexOfNone(url, '?');
  }

  /** The piece gives the name this value. */
  predicate Gives(piece: string, name: string, value: string) {
    Free(name, '=') && ((piece == name && value == "") || (name != "" && piece == name + "=" + value))
  }

  /** `s[a..b]`, which lies between two separators or between one and an end of the text, gives the name
      this value. */
  predicate PieceGives(s: string, a: int, b: int, name: string, value: string) {
    && 0 <= a <= b <= |s| && Free(s[a..b], '&')
    && (a == 0 || s[a - 1] == '&') && (b == |s| || s[b] == '&')
    && Gives(s[a..b], name, value)
  }

  /** No piece that starts before `n` gives the name a value. */
  ghost predicate NoneGives(s: string, name: string, n: int) {
    forall a, b, value | a < n :: !PieceGives(s, a, b, name, value)
  }

  /** The first piece with this name gives it this value. */
  ghost predicate FirstGives(s: string, name: string, value: string) {
    exists a, b :: PieceGives(s, a, b, name, value) && NoneGives(s, name, a)
  }

  lemma PairIs(piece: string, name: string, value: string)
    ensures PairOf(piece) == Some((name, value)) <==> Gives(piece, name, value)
  {
    var i := Index(piece, '=');
    if Gives(piece, name, value) {
      if piece == name {
        IndexOfNone(name, '=');
        NotLonger(name, value);
      } else {
        assert piece == name + ['='] + value;
        IndexOfFirst(name, '=', value);
        assert piece[..|name|] == name && piece[|name| + 1..] == value;
      }
    } else if i < |piece| && i > 0 {
      assert piece == piece[..i] + "=" + piece[i + 1..];
    }
  }

  lemma NotLonger(name: string, value: string)
    ensures name + "=" + value != name
  {
    assert |name + "=" + value| > |name|;
  }

  /** The first piece ends at the first separator, and the others are those of the text behind it. */
  lemma PieceBehind(s: string, i: nat, a: int, b: int, name: string, value: string)
    requires i == Index(s, '&') < |s|
    ensures PieceGives(s, a, b, name, value) <==>
              (a == 0 && b == i && Gives(s[..i], name, value)) || (a > i && PieceGives(s[i + 1..], a - i - 1, b - i - 1, name, value))
  {
    hide Gives;
    var t := s[i + 1..];
    assert forall k | 0 <= k < |t| :: t[k] == s[i + 1 + k];
    assert s[0..i] == s[..i] && Free(s[..i], '&');
    if 0 <= a <= i < b <= |s| {
      assert s[a..b][i - a] == '&';
    }
    if i < a <= b <= |s| {
      assert s[a..b] == t[a - i - 1..b - i - 1];
    }
  }

  lemma OnlyPiece(s: string, a: int, b: int, name: string, value: string)
    requires Free(s, '&')
    ensures PieceGives(s, a, b, name, value) <==> a == 0 && b == |s| && Gives(s, name, value)
  {
    assert s[0..|s|] == s;
  }

  lemma OneGives(s: string, name: string, value: string)
    requires Free(s, '&')
    ensures FirstGives(s, name, value) <==> Gives(s, name, value)
  {
    hide Gives, PieceGives;
    forall a, b, v ensures PieceGives(s, a, b, name, v) <==> a == 0 && b == |s| && Gives(s, name, v) {
      OnlyPiece(s, a, b, name, v);
    }
    assert PieceGives(s, 0, |s|, name, value) <==> Gives(s, name, value);
  }

  /** If the first piece has the name it decides, and otherwise the text behind it does. */
  lemma FirstHere(s: string, i: nat, name: string, value: string)
    requires i == Index(s, '&') < |s|
    ensures FirstGives(s, name, value) <==>
              Gives(s[..i], name, value) || ((forall v :: !Gives(s[..i], name, v)) && FirstGives(s[i + 1..], name, value))
  {
    hide Gives, PieceGives;
    var t := s[i + 1..];
    forall a, b, v
      ensures PieceGives(s, a, b, name, v) <==>
                (a == 0 && b == i && Gives(s[..i], name, v)) || (a > i && PieceGives(t, a - i - 1, b - i - 1, name, v))
    {
      PieceBehind(s, i, a, b, name, v);
    }
    if FirstGives(s, name, value) {
      var a, b :| PieceGives(s, a, b, name, value) && NoneGives(s, name, a);
      if a > i {
        FirstLater(s, i, a, b, name, value);
      }
    }
    if Gives(s[..i], name, value) {
      assert PieceGives(s, 0, i, name, value) && NoneGives(s, name, 0);
    }
    if (forall v :: !Gives(s[..i], name, v)) && FirstGives(t, name, value) {
      var c, d :| PieceGives(t, c, d, name, value) && NoneGives(t, name, c);
      var a, b := c + i + 1, d + i + 1;
      NegativeNever(t, c, d, name, value);
      PieceBehind(s, i, a, b, name, value);
      forall e, f, v | e < a ensures !PieceGives(s, e, f, name, v) {
        assert !PieceGives(t, e - i - 1, f - i - 1, name, v);
      }
      assert NoneGives(s, name, a);
    }
  }

  lemma FirstLater(s: string, i: nat, a: int, b: int, name: string, value: string)
    requires i == Index(s, '&') < |s| && a > i && PieceGives(s, a, b, name, value) && NoneGives(s, name, a)
    ensures (forall v :: !Gives(s[..i], name, v)) && FirstGives(s[i + 1..], name, value)
  {
    hide Gives, PieceGives;
    var t := s[i + 1..];
    PieceBehind(s, i, a, b, name, value);
    forall v ensures !Gives(s[..i], name, v) {
      PieceBehind(s, i, 0, i, name, v);
      assert !PieceGives(s, 0, i, name, v);
    }
    forall c, d, v | c < a - i - 1 ensures !PieceGives(t, c, d, name, v) {
      PieceBehind(s, i, c + i + 1, d + i + 1, name, v);
      NegativeNever(t, c, d, name, v);
      assert !PieceGives(s, c + i + 1, d + i + 1, name, v);
    }
    assert PieceGives(t, a - i - 1, b - i - 1, name, value) && NoneGives(t, name, a - i - 1);
  }

  lemma NegativeNever(s: string, a: int, b: int, name: string, value: string)
    ensures a < 0 ==> !PieceGives(s, a, b, name, value)
  {
  }

  /** Going through the pieces finds the first one with a name. */
  lemma {:induction false} FirstIs(s: string, name: string, value: string)
    ensures FirstValue(Pieces(s, '&'), name) == Some(value) <==> FirstGives(s, name, value)
    decreases |s|
  {
    hide PairOf, Gives, FirstGives;
    var i := Index(s, '&');
    PairIs(s[..i], name, value);
    if i == |s| {
      assert s[..i] == s;
      OneGives(s, name, value);
      assert FirstValue(Pieces(s, '&')[1..], name).None?;
    } else {
      var t := s[i + 1..];
      FirstIs(t, name, value);
      FirstHere(s, i, name, value);
      assert Pieces(s, '&')[1..] == Pieces(t, '&');
      forall v ensures PairOf(s[..i]) == Some((name, v)) <==> Gives(s[..i], name, v) {
        PairIs(s[..i], name, v);
      }
      if PairOf(s[..i]).Some? && PairOf(s[..i]).value.0 == name {
        assert Gives(s[..i], name, PairOf(s[..i]).value.1);
      }
    }
  }

  /** The query of every URL with a question mark: a name has the value that the first piece with that name
      gives it, and nothing else is a name. */
  lemma EveryQuery(path: string, rest: string, name: string, value: string)
    requires Free(path, '?')
    ensures var q := QueryOf(map[], path + "?" + rest);
      name in q && q[name] == value <==> FirstGives(rest, name, value)
  {
    hide PairOf, FirstGives;
    var url := path + "?" + rest;
    assert url == path + ['?'] + rest;
    IndexOfFirst(path, '?', rest);
    assert url[|path| + 1..] == rest;
    FirstWins(map[], Pieces(rest, '&'), name);
    FirstIs(rest, name, value);
  }
}
