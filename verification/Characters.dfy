/** The character classes the source relies on: `str.isspace`, `str.splitlines` and the text columns' `btrim`. */
module Characters {
  // str.isspace, exactly: U+0009..000D, U+001C..0020, U+0085, U+00A0 and the Unicode space separators.
  predicate IsSpace(c: char) {
    || '\t' <= c <= '\r'
    || '\U{1c}' <= c <= ' '
    || c == '\U{85}' || c == '\U{a0}' || c == '\U{1680}'
    || '\U{2000}' <= c <= '\U{200a}'
    || c == '\U{2028}' || c == '\U{2029}' || c == '\U{202f}' || c == '\U{205f}' || c == '\U{3000}'
  }

  // The boundaries of str.splitlines; each of them is white space.
  predicate IsLineBreak(c: char) {
    '\n' <= c <= '\r' || '\U{1c}' <= c <= '\U{1e}' || c == '\U{85}' || c == '\U{2028}' || c == '\U{2029}'
  }

  lemma LineBreaksAreSpaces(c: char)
    ensures IsLineBreak(c) ==> IsSpace(c)
  {
  }

  // `not text.strip()`
  predicate StripsToNothing(text: string) {
    forall i :: 0 <= i < |text| ==> IsSpace(text[i])
  }

  // `length(btrim(text)) > 0`: PostgreSQL's btrim removes the space character only.
  predicate NotBlankColumn(text: string) {
    exists i :: 0 <= i < |text| && text[i] != ' '
  }

  // The zeros of Unicode 15.0's decimal digit runs outside ASCII.
  const OTHER_ZEROS: seq<int> := [
    0x660, 0x6f0, 0x7c0, 0x966, 0x9e6, 0xa66, 0xae6, 0xb66, 0xbe6, 0xc66, 0xce6, 0xd66,
    0xde6, 0xe50, 0xed0, 0xf20, 0x1040, 0x1090, 0x17e0, 0x1810, 0x1946, 0x19d0, 0x1a80, 0x1a90,
    0x1b50, 0x1bb0, 0x1c40, 0x1c50, 0xa620, 0xa8d0, 0xa900, 0xa9d0, 0xa9f0, 0xaa50, 0xabf0, 0xff10,
    0x104a0, 0x10d30, 0x11066, 0x110f0, 0x11136, 0x111d0, 0x112f0, 0x11450, 0x114d0, 0x11650, 0x116c0, 0x11730,
    0x118e0, 0x11950, 0x11c50, 0x11d50, 0x11da0, 0x11f50, 0x16a60, 0x16ac0, 0x16b50, 0x1d7ce, 0x1d7d8, 0x1d7e2,
    0x1d7ec, 0x1d7f6, 0x1e140, 0x1e2f0, 0x1e4f0, 0x1e950, 0x1fbf0
  ]

  // The regular expression class \d on text.
  predicate IsDigit(c: char) {
    || '0' <= c <= '9'
    || (c >= '\U{660}' && exists k :: 0 <= k < |OTHER_ZEROS| && OTHER_ZEROS[k] <= c as int < OTHER_ZEROS[k] + 10)
  }
}
