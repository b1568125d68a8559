/** Character classes and lookup tables of the parser, in strict mode.
    A C `char` is modelled as a Dafny `char`; only the codes 0..255 occur in C. */
module Chars {

  const CR := '\r'
  const LF := '\n'
  const FF := '\U{0C}'

  /** The value in `LOWER(c)`: the byte with bit 5 set. */
  function Lower(c: char): char {
    if c < ' ' || '@' <= c < '`' || (128 as char <= c < 160 as char) || (192 as char <= c < 224 as char)
    then (c as int + 32) as char
    else c
  }

  predicate IsAlpha(c: char) {
    'a' <= Lower(c) <= 'z'
  }

  predicate IsNum(c: char) {
    '0' <= c <= '9'
  }

  predicate IsAlphaNum(c: char) {
    IsAlpha(c) || IsNum(c)
  }

  predicate IsHex(c: char) {
    IsNum(c) || 'a' <= Lower(c) <= 'f'
  }

  predicate IsMark(c: char) {
    c == '-' || c == '_' || c == '.' || c == '!' || c == '~' || c == '*' || c == '\'' || c == '(' || c == ')'
  }

  predicate IsUserinfoChar(c: char) {
    IsAlphaNum(c) || IsMark(c) || c == '%' || c == ';' || c == ':' || c == '&' || c == '=' || c == '+'
    || c == '$' || c == ','
  }

  predicate IsHostChar(c: char) {
    IsAlphaNum(c) || c == '.' || c == '-'
  }

  /** The bitmap `normal_url_char`: printable ASCII except blank, '#' and '?'. */
  predicate IsUrlChar(c: char) {
    '!' <= c <= '~' && c != '#' && c != '?'
  }

  predicate IsTokenMark(c: char) {
    c == '!' || '#' <= c <= '\'' || c == '*' || c == '+' || c == '-' || c == '.' || '^' <= c <= '`' || c == '|'
    || c == '~'
  }

  /** The table `tokens`: the lowercased token character, or NUL for a byte that is no token
      character (section 2.2 of RFC 2616). */
  function Token(c: char): char {
    if 'A' <= c <= 'Z' then (c as int + 32) as char
    else if 'a' <= c <= 'z' || IsNum(c) || IsTokenMark(c) then c
    else '\0'
  }

  /** The table `unhex`; only its first 128 entries are initialised, so the others read as 0. */
  function Unhex(c: char): (v: int)
    ensures -1 <= v < 16
  {
    if IsNum(c) then c as int - '0' as int
    else if 'A' <= c <= 'F' then c as int - 'A' as int + 10
    else if 'a' <= c <= 'f' then c as int - 'a' as int + 10
    else if c as int < 128 then -1
    else 0
  }

  /** The character of a C string at an index, its terminating NUL included. */
  function CharAt(word: string, i: nat): char {
    if i < |word| then word[i] else '\0'
  }

  function Digit(c: char): (d: nat)
    requires IsNum(c)
    ensures d < 10
  {
    c as int - '0' as int
  }

  predicate AllNum(s: string) {
    forall i | 0 <= i < |s| :: IsNum(s[i])
  }

  /** The number that decimal digits denote. */
  function Decimal(s: string): nat
    requires AllNum(s)
    decreases |s|
  {
    if s == "" then 0 else Decimal(s[..|s| - 1]) * 10 + Digit(s[|s| - 1])
  }

  lemma DecimalSnoc(s: string, c: char)
    requires AllNum(s) && IsNum(c)
    ensures AllNum(s + [c]) && Decimal(s + [c]) == Decimal(s) * 10 + Digit(c)
  {
    assert (s + [c])[..|s|] == s;
  }

  /** The same letter, where k is a lower-case one, or the same byte. */
  predicate SameLetter(c: char, k: char) {
    c == k || ('A' <= c <= 'Z' && c as int + 32 == k as int)
  }

  /** The word in any case. */
  predicate InAnyCase(s: string, word: string) {
    |s| == |word| && forall i | 0 <= i < |s| :: SameLetter(s[i], word[i])
  }

  /** A string is its front and its last character. */
  lemma Snoc(s: string)
    requires s != ""
    ensures s[..|s| - 1] + [s[|s| - 1]] == s
  {
  }
}
