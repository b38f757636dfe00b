/** The character classes Python's `re` and `str` methods consult. */
module Chars {

  /** Python's `\d`, restricted to ASCII digits. */
  predicate IsDigit(c: char) {
    '0' <= c <= '9'
  }

  predicate IsAsciiLetter(c: char) {
    ('a' <= c <= 'z') || ('A' <= c <= 'Z')
  }

  /** `[a-zA-Z0-9]` */
  predicate IsAsciiAlnum(c: char) {
    IsAsciiLetter(c) || IsDigit(c)
  }

  /** Python's `\w`, restricted to ASCII: letters, digits and underscore. */
  predicate IsWordChar(c: char) {
    IsAsciiAlnum(c) || c == '_'
  }

  /** Exactly the characters for which Python's `str.isspace()` holds; these are
      also the characters `\s` matches in a `str` pattern and the ones
      `str.strip()` and `str.split()` treat as whitespace. */
  const Whitespace: set<char> := {
    '\t', '\n', '\U{0B}', '\U{0C}', '\r', '\U{1C}', '\U{1D}', '\U{1E}', '\U{1F}', ' ',
    '\U{85}', '\U{A0}', '\U{1680}',
    '\U{2000}', '\U{2001}', '\U{2002}', '\U{2003}', '\U{2004}', '\U{2005}', '\U{2006}',
    '\U{2007}', '\U{2008}', '\U{2009}', '\U{200A}',
    '\U{2028}', '\U{2029}', '\U{202F}', '\U{205F}', '\U{3000}'
  }

  predicate IsSpace(c: char) {
    c in Whitespace
  }

  /** One repetition of the URL body
      `(?:[a-zA-Z]|[0-9]|[$-_@.&+]|[!*\\(\\),]|(?:%[0-9a-fA-F][0-9a-fA-F]))`.
      `$-_` inside the class is the range from '$' to '_', which already holds
      the digits, the upper-case letters, '%', '*', '(', ')', ',', '\\', '<',
      '>', '[' and ']'; what remains outside it is '!' and the lower-case
      letters. The `%XX` alternative matches nothing the single characters do
      not. */
  predicate IsUrlChar(c: char) {
    c == '!' || ('$' <= c <= '_') || ('a' <= c <= 'z')
  }

  /** `[a-zA-Z0-9._-]`, the inner characters of a model name. */
  predicate IsModelNameChar(c: char) {
    IsAsciiAlnum(c) || c == '.' || c == '_' || c == '-'
  }

  lemma DigitIsWordChar(c: char)
    requires IsDigit(c)
    ensures IsWordChar(c) && !IsSpace(c)
  {
  }
}
