/** Byte classes and number texts of the parser.

    A byte is modelled as a `char`.  Every test the parser makes gives the same answer for all
    bytes of 128 and above, and the functions here give that answer for all larger characters. */
module Bytes {

  datatype Option<+T> = None | Some(value: T)

  const CR: char := '\r'
  const LF: char := '\n'

  /** The macro LOWER: bit 5 is set, whatever the character is. */
  function Lower(c: char): int {
    var n := c as int;
    if n < 32 || 64 <= n < 96 || 128 <= n < 160 || 192 <= n < 224 then n + 32 else n
  }

  predicate IsAlpha(c: char) {
    'a' as int <= Lower(c) <= 'z' as int
  }

  predicate IsNum(c: char) {
    '0' <= c <= '9'
  }

  predicate IsAlphaNum(c: char) {
    IsAlpha(c) || IsNum(c)
  }

  predicate IsHex(c: char) {
    IsNum(c) || 'a' as int <= Lower(c) <= 'f' as int
  }

  predicate IsMark(c: char) {
    c == '-' || c == '_' || c == '.' || c == '!' || c == '~' || c == '*' || c == '\'' || c == '(' || c == ')'
  }

  predicate IsUserinfoChar(c: char) {
    IsAlphaNum(c) || IsMark(c) || c == '%' || c == ';' || c == ':' || c == '&' || c == '='
    || c == '+' || c == '$' || c == ','
  }

  /** Strict build: underscores are not host characters. */
  predicate IsHostChar(c: char) {
    IsAlphaNum(c) || c == '.' || c == '-'
  }

  /** The bitmap normal_url_char in the strict build. */
  predicate IsUrlChar(c: char) {
    33 <= c as int <= 126 && c != '#' && c != '?'
  }

  /** A token byte of RFC 2616 section 2.2. */
  predicate IsToken(c: char) {
    || 'a' <= c <= 'z' || 'A' <= c <= 'Z' || '0' <= c <= '9'
    || c == '!' || c == '#' || c == '$' || c == '%' || c == '&' || c == '\'' || c == '*' || c == '+'
    || c == '-' || c == '.' || c == '^' || c == '_' || c == '`' || c == '|' || c == '~'
  }

  /** ASCII lower case, as `tokens` and tolower give it. */
  function ToLower(c: char): char {
    if 'A' <= c <= 'Z' then c + 32 as char else c
  }

  /** The table `tokens`: the lower-cased token byte, or NUL for every other byte. */
  function Token(c: char): char {
    if IsToken(c) then ToLower(c) else '\0'
  }

  /** The table `unhex`.  It lists 128 of its 256 entries, so that a byte of 128 or more counts as 0. */
  function Unhex(c: char): int {
    if '0' <= c <= '9' then c as int - '0' as int
    else if 'a' <= c <= 'f' then c as int - 'a' as int + 10
    else if 'A' <= c <= 'F' then c as int - 'A' as int + 10
    else if c as int >= 128 then 0
    else -1
  }

  function Digit(c: char): int {
    c as int - '0' as int
  }

  predicate AllNum(s: string) {
    forall i :: 0 <= i < |s| ==> IsNum(s[i])
  }

  /** Bytes that the table takes for digits: hexadecimal digits and, as zeros, bytes of 128 and above. */
  predicate AllHex(s: string) {
    forall i :: 0 <= i < |s| ==> Unhex(s[i]) != -1
  }

  predicate AllToken(s: string) {
    forall i :: 0 <= i < |s| ==> IsToken(s[i])
  }

  function LowerString(s: string): (r: string)
    ensures |r| == |s|
    ensures forall i :: 0 <= i < |s| ==> r[i] == ToLower(s[i])
  {
    seq(|s|, i requires 0 <= i < |s| => ToLower(s[i]))
  }

  /** The number a text of decimal digits denotes. */
  function DecValue(s: string): (v: nat)
    requires AllNum(s)
  {
    if s == "" then 0 else 10 * DecValue(s[..|s| - 1]) + Digit(s[|s| - 1])
  }

  /** The number a text of hexadecimal digits denotes, in the table's reading. */
  function HexValue(s: string): (v: nat)
    requires AllHex(s)
  {
    if s == "" then 0 else 16 * HexValue(s[..|s| - 1]) + Unhex(s[|s| - 1])
  }

  /** Decimal digits as an output stream prints them. */
  function Decimal(n: nat): (s: string)
    ensures |s| > 0 && AllNum(s) && DecValue(s) == n
    decreases n
  {
    if n < 10 then
      var s := [(n + '0' as int) as char];
      assert s[..0] == "";
      s
    else
      var d := [(n % 10 + '0' as int) as char];
      var s := Decimal(n / 10) + d;
      assert s[..|s| - 1] == Decimal(n / 10);
      s
  }
}
