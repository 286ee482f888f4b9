/** Kotlin's `isBlank` test on strings. */
module Strings {

  /** Kotlin's `Char.isWhitespace()`: `Character.isWhitespace` or `Character.isSpaceChar`
      on the JVM, i.e. the ASCII controls TAB..CR and FS..US, plus every character of the
      Unicode space, line and paragraph separator categories. */
  predicate IsWhitespace(c: char) {
    || '\t' <= c <= '\r'
    || '\U{001C}' <= c <= ' '
    || c == '\U{00A0}' || c == '\U{1680}'
    || '\U{2000}' <= c <= '\U{200A}'
    || c == '\U{2028}' || c == '\U{2029}' || c == '\U{202F}' || c == '\U{205F}'
    || c == '\U{3000}'
  }

  /** `CharSequence.isBlank()`: empty or only whitespace. */
  predicate IsBlank(s: string) {
    forall i :: 0 <= i < |s| ==> IsWhitespace(s[i])
  }

  /** A string whose first character is not whitespace is not blank. */
  lemma LeadingCharNotBlank(s: string)
    requires |s| > 0 && !IsWhitespace(s[0])
    ensures !IsBlank(s)
  {
  }
}
