/** Character classes used by Python's string methods and regular expressions.
    The Unicode tables behind them are approximated: every class is exact on
    ASCII, and the non-ASCII characters that matter to the cleaners (Unicode
    spaces, line separators, format characters) are listed explicitly. */
module Chars {

  /** `str.isspace()`, and the `\s` class of a `str` regular expression. */
  predicate IsSpace(c: char) {
    c == ' ' || ('\t' <= c <= '\r') || ('\U{1c}' <= c <= '\U{1f}')
    || c == '\U{85}' || c == '\U{a0}' || c == '\U{1680}'
    || ('\U{2000}' <= c <= '\U{200a}') || c == '\U{2028}' || c == '\U{2029}'
    || c == '\U{202f}' || c == '\U{205f}' || c == '\U{3000}'
  }

  /** Unicode "other, format" characters (soft hyphen, zero-width and
      direction marks, the byte-order mark) that `str.isprintable()` rejects. */
  predicate IsFormat(c: char) {
    c == '\U{ad}' || ('\U{600}' <= c <= '\U{605}') || c == '\U{61c}' || c == '\U{6dd}'
    || c == '\U{180e}' || ('\U{200b}' <= c <= '\U{200f}') || ('\U{202a}' <= c <= '\U{202e}')
    || ('\U{2060}' <= c <= '\U{206f}') || c == '\U{feff}' || ('\U{fff9}' <= c <= '\U{fffb}')
  }

  /** `str.isprintable()` for one character: not a control, format, private-use
      or separator character, except that the plain space is printable. */
  predicate IsPrintable(c: char) {
    !(c < ' ' || ('\U{7f}' <= c <= '\U{9f}'))
    && (c == ' ' || !IsSpace(c))
    && !IsFormat(c)
    && !('\U{e000}' <= c <= '\U{f8ff}')
  }

  /** The `\d` class, on ASCII digits. */
  predicate IsDigit(c: char) {
    '0' <= c <= '9'
  }

  predicate IsAsciiLetter(c: char) {
    ('a' <= c <= 'z') || ('A' <= c <= 'Z')
  }

  /** The `\w` class, on ASCII: letters, digits and the underscore. */
  predicate IsWordChar(c: char) {
    IsAsciiLetter(c) || IsDigit(c) || c == '_'
  }

  predicate IsAscii(c: char) {
    c as int < 128
  }

  /** The only character that is both printable and whitespace is the space. */
  lemma PrintableSpaceIsBlank(c: char)
    requires IsPrintable(c) && IsSpace(c)
    ensures c == ' '
  {
  }
}
