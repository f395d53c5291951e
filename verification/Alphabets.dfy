/** The byte classes and tables of the parser, by listing their bytes. */
module Alphabets {
  import opened Bytes
  import opened HttpTypes
  import opened Methods

  const SEPARATORS := "()<>@,;:\\\"/[]?={} \t"

  /** A token byte is a printable byte of ASCII that is no separator (section 2.2 of RFC 2616). */
  lemma TokenBytes(c: char)
    ensures IsToken(c) <==> 32 <= c as int <= 126 && c !in SEPARATORS
  {
    var s := SEPARATORS;
    assert s[0] == '(' && s[1] == ')' && s[2] == '<' && s[3] == '>' && s[4] == '@' && s[5] == ',' && s[6] == ';' && s[7] == ':';
    assert s[8] == '\\' && s[9] == '"' && s[10] == '/' && s[11] == '[' && s[12] == ']' && s[13] == '?' && s[14] == '=';
    assert s[15] == '{' && s[16] == '}' && s[17] == ' ' && s[18] == '\t';
  }

  const SMALL := "abcdefghijklmnopqrstuvwxyz"
  const CAPITAL := "ABCDEFGHIJKLMNOPQRSTUVWXYZ"

  lemma InOrder()
    ensures forall i | 0 <= i < 26 :: SMALL[i] == 'a' + i as char
    ensures forall i | 0 <= i < 26 :: CAPITAL[i] == 'A' + i as char
  {
  }

  lemma Ranges(c: char)
    ensures IsAlpha(c) <==> 'a' <= c <= 'z' || 'A' <= c <= 'Z'
  {
  }

  lemma Listed(c: char)
    ensures c in SMALL <==> 'a' <= c <= 'z'
    ensures c in CAPITAL <==> 'A' <= c <= 'Z'
  {
    InOrder();
    if 'a' <= c <= 'z' {
      assert SMALL[c as int - 'a' as int] == c;
    }
    if 'A' <= c <= 'Z' {
      assert CAPITAL[c as int - 'A' as int] == c;
    }
  }

  /** Letters and their lower case. */
  lemma Letters(c: char)
    ensures IsAlpha(c) <==> c in SMALL || c in CAPITAL
    ensures c !in CAPITAL ==> ToLower(c) == c
    ensures forall i | 0 <= i < 26 :: ToLower(CAPITAL[i]) == SMALL[i] && SMALL[i] != CAPITAL[i]
  {
    hide IsAlpha;
    Ranges(c);
    Listed(c);
    InOrder();
  }

  const DIGITS := "0123456789"
  const HEXADECIMAL := "0123456789abcdef"
  const HEXADECIMAL_CAPITAL := "0123456789ABCDEF"

  /** Digits and their values. */
  lemma Digits(c: char)
    ensures IsNum(c) <==> c in DIGITS
    ensures forall i | 0 <= i < 10 :: Digit(DIGITS[i]) == i
    ensures IsHex(c) <==> c in HEXADECIMAL || c in HEXADECIMAL_CAPITAL
    ensures forall i | 0 <= i < 16 :: Unhex(HEXADECIMAL[i]) == Unhex(HEXADECIMAL_CAPITAL[i]) == i
    ensures c as int < 128 && c !in HEXADECIMAL && c !in HEXADECIMAL_CAPITAL ==> Unhex(c) == -1
  {
    forall i | 0 <= i < 10 ensures DIGITS[i] == HEXADECIMAL[i] == HEXADECIMAL_CAPITAL[i] == '0' + i as char {
    }
    forall i | 10 <= i < 16 ensures HEXADECIMAL[i] == 'a' + (i - 10) as char && HEXADECIMAL_CAPITAL[i] == 'A' + (i - 10) as char {
    }
    if '0' <= c <= '9' {
      assert DIGITS[c as int - '0' as int] == c && HEXADECIMAL[c as int - '0' as int] == c;
    }
    if 'a' <= c <= 'f' {
      assert HEXADECIMAL[c as int - 'a' as int + 10] == c;
    }
    if 'A' <= c <= 'F' {
      assert HEXADECIMAL_CAPITAL[c as int - 'A' as int + 10] == c;
    }
  }

  const MARKS := "-_.!~*'()"

  /** The bytes of a host name, of user information and of a path. */
  lemma UrlBytes(c: char)
    ensures IsHostChar(c) <==> IsAlpha(c) || IsNum(c) || c in ".-"
    ensures IsUserinfoChar(c) <==> IsAlpha(c) || IsNum(c) || c in MARKS || c in "%;:&=+$,"
    ensures IsUrlChar(c) <==> 33 <= c as int <= 126 && c !in "?#"
  {
    var m, u := MARKS, "%;:&=+$,";
    assert m[0] == '-' && m[1] == '_' && m[2] == '.' && m[3] == '!' && m[4] == '~' && m[5] == '*' && m[6] == '\'' && m[7] == '(' && m[8] == ')';
    assert u[0] == '%' && u[1] == ';' && u[2] == ':' && u[3] == '&' && u[4] == '=' && u[5] == '+' && u[6] == '$' && u[7] == ',';
    assert "?#"[0] == '?' && "?#"[1] == '#' && ".-"[0] == '.' && ".-"[1] == '-';
  }

  /** Each method is recognised by its own name. */
  lemma MethodNames()
    ensures TakenFor("DELETE", DELETE) && TakenFor("GET", GET) && TakenFor("HEAD", HEAD) && TakenFor("POST", POST)
    ensures TakenFor("PUT", PUT) && TakenFor("CONNECT", CONNECT) && TakenFor("OPTIONS", OPTIONS) && TakenFor("TRACE", TRACE)
    ensures TakenFor("COPY", COPY) && TakenFor("LOCK", LOCK) && TakenFor("MKCOL", MKCOL) && TakenFor("MOVE", MOVE)
    ensures TakenFor("PROPFIND", PROPFIND) && TakenFor("PROPPATCH", PROPPATCH) && TakenFor("SEARCH", SEARCH) && TakenFor("UNLOCK", UNLOCK)
    ensures TakenFor("REPORT", REPORT) && TakenFor("MKACTIVITY", MKACTIVITY) && TakenFor("CHECKOUT", CHECKOUT) && TakenFor("MERGE", MERGE)
    ensures TakenFor("M-SEARCH", MSEARCH) && TakenFor("NOTIFY", NOTIFY) && TakenFor("SUBSCRIBE", SUBSCRIBE) && TakenFor("UNSUBSCRIBE", UNSUBSCRIBE)
    ensures TakenFor("PATCH", PATCH) && TakenFor("PURGE", PURGE)
  {
    forall v ensures TakenFor(MethodString(v), v) {
      NameIsTaken(v);
    }
  }
}
