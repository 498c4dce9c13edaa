/** Classes of characters, by range and by list. */
module Characters {

  /** The white space of JavaScript, as `trim` removes it and `\s` matches it. */
  predicate IsSpace(c: char) {
    var n := c as int;
    || 9 <= n <= 13 || n == 0x20 || n == 0xA0 || n == 0x1680 || 0x2000 <= n <= 0x200A
    || n == 0x2028 || n == 0x2029 || n == 0x202F || n == 0x205F || n == 0x3000 || n == 0xFEFF
  }

  /** Tab, line breaks, the space separators of Unicode, and the byte order mark. */
  lemma IsSpaceExactly(c: char)
    ensures IsSpace(c) <==>
            c in "\t\U{0B}\U{0C} \U{A0}\U{FEFF}" || c in "\n\r\U{2028}\U{2029}"
            || c in "\U{1680}\U{2000}\U{2001}\U{2002}\U{2003}\U{2004}\U{2005}\U{2006}\U{2007}\U{2008}\U{2009}\U{200A}"
            || c in "\U{202F}\U{205F}\U{3000}"
  {
    assert "\t\U{0B}\U{0C} \U{A0}\U{FEFF}" == ['\t', '\U{0B}', '\U{0C}', ' ', '\U{A0}', '\U{FEFF}'];
  }

  lemma UpperExactly(c: char)
    ensures 'A' <= c <= 'Z' <==> c in "ABCDEFGHIJKLMNOPQRSTUVWXYZ"
  {
    if 'A' <= c <= 'Z' { assert "ABCDEFGHIJKLMNOPQRSTUVWXYZ"[c as int - 65] == c; }
  }

  lemma LowerExactly(c: char)
    ensures 'a' <= c <= 'z' <==> c in "abcdefghijklmnopqrstuvwxyz"
  {
    if 'a' <= c <= 'z' { assert "abcdefghijklmnopqrstuvwxyz"[c as int - 97] == c; }
  }

  lemma DigitExactly(c: char)
    ensures '0' <= c <= '9' <==> c in "0123456789"
  {
    if '0' <= c <= '9' { assert "0123456789"[c as int - 48] == c; }
  }
}
