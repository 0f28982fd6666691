/** Character classes shared by the text-handling parts of the model. */
module Text {

  /** The white space that trimming removes (the Unicode property White_Space). */
  predicate IsWhite(c: char) {
    || '\t' <= c <= '\r'
    || c == ' ' || c == '\U{85}' || c == '\U{A0}' || c == '\U{1680}'
    || '\U{2000}' <= c <= '\U{200A}'
    || c == '\U{2028}' || c == '\U{2029}' || c == '\U{202F}' || c == '\U{205F}' || c == '\U{3000}'
  }

  /** The control characters: C0, DEL and C1. */
  predicate IsControl(c: char) {
    c < ' ' || '\U{7F}' <= c <= '\U{9F}'
  }

  predicate Blank(s: string) {
    forall c :: c in s ==> IsWhite(c)
  }
}
