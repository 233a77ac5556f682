/**
 * The character classes used by the scripts' regular expressions and by
 * str.splitlines().  `\s` is modelled exactly (the characters for which
 * Python's str.isspace() holds); `\w` and `\d` are modelled by their ASCII
 * subsets.
 */
module Chars {

  /** ASCII approximation of `\w`: letters, digits and the underscore. */
  predicate IsWordChar(c: char) {
    'a' <= c <= 'z' || 'A' <= c <= 'Z' || '0' <= c <= '9' || c == '_'
  }

  /** ASCII approximation of `\d`. */
  predicate IsDigit(c: char) {
    '0' <= c <= '9'
  }

  /** `\s` for str patterns: exactly the characters str.isspace() accepts. */
  predicate IsSpace(c: char) {
    var n := c as int;
    (0x09 <= n <= 0x0D) || (0x1C <= n <= 0x20) || n == 0x85 || n == 0xA0 ||
    n == 0x1680 || (0x2000 <= n <= 0x200A) || n == 0x2028 || n == 0x2029 ||
    n == 0x202F || n == 0x205F || n == 0x3000
  }

  /** The line boundaries of str.splitlines(). */
  predicate IsLineBreak(c: char) {
    var n := c as int;
    (0x0A <= n <= 0x0D) || (0x1C <= n <= 0x1E) || n == 0x85 || n == 0x2028 || n == 0x2029
  }

  /** The class `[A-Za-z0-9+/=]` that captures a base64 token. */
  predicate IsBase64Char(c: char) {
    'A' <= c <= 'Z' || 'a' <= c <= 'z' || '0' <= c <= '9' || c == '+' || c == '/' || c == '='
  }

  /** The class `[A-Za-z0-9+/=.@-]` that captures a key comment. */
  predicate IsCommentChar(c: char) {
    IsBase64Char(c) || c == '.' || c == '@' || c == '-'
  }

  /** Every character that can delimit a line also counts as whitespace. */
  lemma LineBreakIsSpace(c: char)
    ensures IsLineBreak(c) ==> IsSpace(c)
  {
  }

  /** The token classes never overlap the whitespace class. */
  lemma TokenCharsAreNotSpace(c: char)
    ensures IsCommentChar(c) ==> !IsSpace(c)
  {
  }
}
