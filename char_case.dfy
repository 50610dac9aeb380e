/** The part of JavaScript's `String.prototype.toUpperCase` and
    `String.prototype.toLowerCase` that the model relies on, applied to a
    one-character string. Upper-casing covers Basic Latin, the Cyrillic
    block U+0400..U+045F and the historic Cyrillic letters U+1C80..U+1C88;
    these include every character whose upper case is one of the Cyrillic
    capitals А..Я. Lower-casing covers Basic Latin, the Latin-1 capitals,
    the Greek capitals and the Cyrillic block. Every other character is
    treated as having no case. */
module CharCase {

  predicate IsAsciiDigit(c: char) { '0' <= c <= '9' }
  predicate IsAsciiUpper(c: char) { 'A' <= c <= 'Z' }
  predicate IsAsciiLower(c: char) { 'a' <= c <= 'z' }

  /** À..Þ, U+00C0..U+00DE, without the multiplication sign U+00D7 */
  predicate IsLatin1Upper(c: char) { '\U{00C0}' <= c <= '\U{00DE}' && c != '\U{00D7}' }
  /** Α..Ω, U+0391..U+03A9, without the unassigned U+03A2 */
  predicate IsGreekUpper(c: char) { '\U{0391}' <= c <= '\U{03A9}' && c != '\U{03A2}' }
  /** А..Я, U+0410..U+042F */
  predicate IsCyrillicUpper(c: char) { '\U{0410}' <= c <= '\U{042F}' }
  /** а..я, U+0430..U+044F */
  predicate IsCyrillicLower(c: char) { '\U{0430}' <= c <= '\U{044F}' }
  /** Ѐ..Џ, U+0400..U+040F (Ё, Ђ, Є, ...) */
  predicate IsCyrillicUpperExtra(c: char) { '\U{0400}' <= c <= '\U{040F}' }
  /** ѐ..џ, U+0450..U+045F (ё, ђ, є, ...) */
  predicate IsCyrillicLowerExtra(c: char) { '\U{0450}' <= c <= '\U{045F}' }
  /** The historic lower-case variants U+1C80..U+1C88 (rounded ve, long-legged
      de, narrow o, wide es, tall te, three-legged te, tall hard sign, tall
      yat, unblinked uk). */
  predicate IsCyrillicHistoric(c: char) { '\U{1C80}' <= c <= '\U{1C88}' }

  /** The upper case of a historic variant: В Д О С Т Т Ъ Ѣ Ꙋ. */
  function HistoricUpper(c: char): char
    requires IsCyrillicHistoric(c)
  {
    match c
    case '\U{1C80}' => '\U{0412}'
    case '\U{1C81}' => '\U{0414}'
    case '\U{1C82}' => '\U{041E}'
    case '\U{1C83}' => '\U{0421}'
    case '\U{1C84}' => '\U{0422}'
    case '\U{1C85}' => '\U{0422}'
    case '\U{1C86}' => '\U{042A}'
    case '\U{1C87}' => '\U{0462}'
    case _ => '\U{A64A}'
  }

  function ToUpperChar(c: char): (u: char)
    ensures IsAsciiLower(c) ==> IsAsciiUpper(u) && u as int == c as int - 32
    ensures IsCyrillicLower(c) ==> IsCyrillicUpper(u) && u as int == c as int - 32
    ensures IsCyrillicLowerExtra(c) ==> IsCyrillicUpperExtra(u) && u as int == c as int - 80
    ensures IsCyrillicHistoric(c) ==> u == HistoricUpper(c)
    ensures !IsAsciiLower(c) && !IsCyrillicLower(c) && !IsCyrillicLowerExtra(c) && !IsCyrillicHistoric(c) ==> u == c
  {
    if IsAsciiLower(c) || IsCyrillicLower(c) then (c as int - 32) as char
    else if IsCyrillicLowerExtra(c) then (c as int - 80) as char
    else if IsCyrillicHistoric(c) then HistoricUpper(c)
    else c
  }

  function ToLowerChar(c: char): (l: char)
    ensures IsAsciiUpper(c) ==> IsAsciiLower(l) && l as int == c as int + 32
    ensures IsLatin1Upper(c) || IsGreekUpper(c) ==> l as int == c as int + 32
    ensures IsCyrillicUpper(c) ==> IsCyrillicLower(l) && l as int == c as int + 32
    ensures IsCyrillicUpperExtra(c) ==> IsCyrillicLowerExtra(l) && l as int == c as int + 80
    ensures !IsAsciiUpper(c) && !IsLatin1Upper(c) && !IsGreekUpper(c) && !IsCyrillicUpper(c) && !IsCyrillicUpperExtra(c) ==> l == c
  {
    if IsAsciiUpper(c) || IsLatin1Upper(c) || IsGreekUpper(c) || IsCyrillicUpper(c) then (c as int + 32) as char
    else if IsCyrillicUpperExtra(c) then (c as int + 80) as char
    else c
  }

  /** Lower-casing a lower-cased character changes nothing. */
  lemma LowerCaseIdempotent(c: char)
    ensures ToLowerChar(ToLowerChar(c)) == ToLowerChar(c)
  {
  }
}
