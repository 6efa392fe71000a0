/**
  Character classes the filter relies on: which characters may take part in a
  match (ASCII letters and digits, and the East Asian block 0x2E80..0x9FFF) and
  which are "symbols" that a match skips over; and the blank test applied to
  the input text before scanning.
 */
module Symbols {
  import opened Wrappers

  /** First and last code point of the East Asian range that counts as matchable text. */
  const EastAsianFirst := 0x2E80
  const EastAsianLast := 0x9FFF

  /** An ASCII letter or digit (commons-lang CharUtils.isAsciiAlphanumeric). */
  predicate IsAsciiAlphanumeric(c: char)
  {
    ('A' <= c <= 'Z') || ('a' <= c <= 'z') || ('0' <= c <= '9')
  }

  /** The filter's isSymbol: neither an ASCII letter or digit nor in the East Asian range. */
  function IsSymbol(c: char): (r: bool)
    ensures !r <==> IsAsciiAlphanumeric(c) || EastAsianFirst <= c as int <= EastAsianLast
  {
    !IsAsciiAlphanumeric(c) && (c as int < EastAsianFirst || c as int > EastAsianLast)
  }

  /**
    Java's Character.isWhitespace on one UTF-16 unit: the controls 0x09..0x0D
    and 0x1C..0x1F, and the space, line and paragraph separators other than the
    non-breaking ones (0x00A0, 0x2007, 0x202F).
   */
  predicate IsWhitespace(c: char)
  {
    var u := c as int;
    (0x09 <= u <= 0x0D) || (0x1C <= u <= 0x20) || u == 0x1680
    || (0x2000 <= u <= 0x2006) || (0x2008 <= u <= 0x200A)
    || u == 0x2028 || u == 0x2029 || u == 0x205F || u == 0x3000
  }

  /** StringUtils.isBlank: null, empty, or made of whitespace only. */
  predicate IsBlank(text: Option<string>)
  {
    text.None? || forall i :: 0 <= i < |text.value| ==> IsWhitespace(text.value[i])
  }

  /**
    Every whitespace character is a symbol except the ideographic space 0x3000,
    which lies inside the East Asian range: a text made of ideographic spaces is
    blank and yet holds no symbol.
   */
  lemma WhitespaceIsSymbol(c: char)
    ensures IsWhitespace(c) && c != '\U{3000}' ==> IsSymbol(c)
    ensures IsWhitespace('\U{3000}') && !IsSymbol('\U{3000}')
  {
  }

  /**
    A character beyond 0xFFFF, which Java holds as a surrogate pair, is a
    symbol and not whitespace, as each of the two surrogate halves is.
   */
  lemma BeyondBmpIsSymbol(c: char)
    requires c as int > 0xFFFF
    ensures IsSymbol(c) && !IsWhitespace(c)
  {
  }

  /** Sample characters on both sides of the classification. */
  lemma SymbolSamples()
    ensures IsSymbol('-') && IsSymbol(' ') && IsSymbol('!') && IsSymbol('\U{00E9}') && IsSymbol('\U{AC00}')
    ensures !IsSymbol('a') && !IsSymbol('Z') && !IsSymbol('7') && !IsSymbol('\U{4E2D}') && !IsSymbol('\U{2E80}') && !IsSymbol('\U{9FFF}')
    ensures IsSymbol('\U{2E7F}') && IsSymbol('\U{A000}')
  {
  }
}
