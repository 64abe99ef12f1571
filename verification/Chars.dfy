/** Character classes shared by the window guard, the replacement fields and the query languages. */
module Chars {

  /** What Python's `\s` matches in a str. */
  predicate IsSpace(c: char) {
    || '\t' <= c <= '\r'
    || '\U{1C}' <= c <= ' '
    || c == '\U{85}' || c == '\U{A0}' || c == '\U{1680}'
    || '\U{2000}' <= c <= '\U{200A}'
    || c == '\U{2028}' || c == '\U{2029}' || c == '\U{202F}' || c == '\U{205F}' || c == '\U{3000}'
  }

  predicate IsDigit(c: char) {
    '0' <= c <= '9'
  }

  predicate IsLetter(c: char) {
    'a' <= c <= 'z' || 'A' <= c <= 'Z'
  }

  /** What Python's `\w` matches: `alnum` says which characters outside ASCII count as alphanumeric. */
  predicate IsWord(alnum: char -> bool, c: char) {
    IsLetter(c) || IsDigit(c) || c == '_' || (c > '\U{7F}' && !IsSpace(c) && alnum(c))
  }

  /** ASCII lower case, as the case-insensitive patterns of the guard need it. */
  function Lower(c: char): char {
    if 'A' <= c <= 'Z' then ((c as int) + 32) as char else c
  }

  /** `s` equals the lower-case word `w`, whatever the case of `s`. */
  predicate SameFold(s: string, w: string) {
    |s| == |w| && forall i :: 0 <= i < |w| ==> Lower(s[i]) == w[i]
  }

  predicate AllSpace(s: string) {
    forall i :: 0 <= i < |s| ==> IsSpace(s[i])
  }

  predicate NoSpace(s: string) {
    forall i :: 0 <= i < |s| ==> !IsSpace(s[i])
  }

  predicate StartsWith(s: string, prefix: string) {
    |prefix| <= |s| && s[..|prefix|] == prefix
  }

  /** Without the blanks around it, as Python strips a str. */
  function Strip(text: string): string
    decreases |text|
  {
    if text == "" then ""
    else if IsSpace(text[0]) then Strip(text[1..])
    else if IsSpace(text[|text| - 1]) then Strip(text[..|text| - 1])
    else text
  }
}
