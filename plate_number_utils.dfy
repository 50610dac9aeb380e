/** `plateNumberUtils.ts`: normalising a vehicle registration number so that
    plates typed with Cyrillic look-alike letters, or in lower case, compare
    equal to the Latin upper-case form. */
module PlateNumberUtils {
  import opened Wrappers
  import opened CharCase

  /** The twelve Cyrillic letters that look like Latin ones, in both cases,
      with the Latin letter each one stands for. */
  const LookAlikes: map<char, char> := map[
    '\U{0410}' := 'A', '\U{0430}' := 'A',  // А а
    '\U{0412}' := 'B', '\U{0432}' := 'B',  // В в
    '\U{0415}' := 'E', '\U{0435}' := 'E',  // Е е
    '\U{041A}' := 'K', '\U{043A}' := 'K',  // К к
    '\U{041C}' := 'M', '\U{043C}' := 'M',  // М м
    '\U{041D}' := 'H', '\U{043D}' := 'H',  // Н н
    '\U{041E}' := 'O', '\U{043E}' := 'O',  // О о
    '\U{0420}' := 'P', '\U{0440}' := 'P',  // Р р
    '\U{0421}' := 'C', '\U{0441}' := 'C',  // С с
    '\U{0422}' := 'T', '\U{0442}' := 'T',  // Т т
    '\U{0423}' := 'Y', '\U{0443}' := 'Y',  // У у
    '\U{0425}' := 'X', '\U{0445}' := 'X'   // Х х
  ]

  /** `mapChar`: the one-character string that stands for `srcChar` in a
      unified number. Digits and upper-case Latin letters are kept,
      lower-case Latin letters are upper-cased, the look-alikes become
      their Latin letter and every other character is kept. */
  function MapChar(srcChar: char): (r: string)
    ensures |r| == 1
    ensures IsAsciiDigit(srcChar) || IsAsciiUpper(srcChar) ==> r == [srcChar]
    ensures IsAsciiLower(srcChar) ==> IsAsciiUpper(r[0]) && r[0] as int == srcChar as int - 32
    ensures IsAsciiDigit(r[0]) || IsAsciiUpper(r[0]) || r == [srcChar]
  {
    var srcUpperCase := ToUpperChar(srcChar);
    if IsAsciiDigit(srcChar) then [srcChar]
    else if IsAsciiUpper(srcChar) then [srcChar]
    else if IsAsciiLower(srcChar) then [srcUpperCase]
    else
      match srcUpperCase
      case '\U{0410}' => "A"
      case '\U{0412}' => "B"
      case '\U{0415}' => "E"
      case '\U{041A}' => "K"
      case '\U{041C}' => "M"
      case '\U{041D}' => "H"
      case '\U{041E}' => "O"
      case '\U{0420}' => "P"
      case '\U{0421}' => "C"
      case '\U{0422}' => "T"
      case '\U{0423}' => "Y"
      case '\U{0425}' => "X"
      case _ => [srcChar]
  }

  /** A Cyrillic look-alike, in either case, becomes its Latin letter. */
  lemma MapCharLookAlike(c: char)
    requires c in LookAlikes
    ensures MapChar(c) == [LookAlikes[c]]
  {
  }

  /** A historic Cyrillic variant whose upper case is a look-alike, such as
      the narrow o U+1C82, becomes that look-alike's Latin letter. */
  lemma MapCharHistoric(c: char)
    requires IsCyrillicHistoric(c) && HistoricUpper(c) in LookAlikes
    ensures MapChar(c) == [LookAlikes[HistoricUpper(c)]]
  {
  }

  /** A character that is not a digit, not a Latin letter and whose upper
      case is not a look-alike is kept as it is. */
  lemma MapCharOther(c: char)
    requires !IsAsciiDigit(c) && !IsAsciiUpper(c) && !IsAsciiLower(c) && ToUpperChar(c) !in LookAlikes
    ensures MapChar(c) == [c]
  {
  }

  /** Mapping a character that has already been mapped changes nothing. */
  lemma MapCharIdempotent(c: char)
    ensures MapChar(MapChar(c)[0]) == MapChar(c)
  {
  }

  /** The string built by the loop of `unifyRegistrationNumber` after it has
      read `s`: each character's mapping is appended when it is non-empty. */
  function Unified(s: string): string
  {
    if s == [] then ""
    else
      var c := MapChar(s[|s| - 1]);
      Unified(s[..|s| - 1]) + (if |c| > 0 then c else "")
  }

  /** The unified string has one character per input character: the mapping
      of the input character at the same position. */
  lemma {:induction false} UnifiedAt(s: string)
    ensures |Unified(s)| == |s|
    ensures forall i :: 0 <= i < |s| ==> Unified(s)[i] == MapChar(s[i])[0]
  {
    if s != [] {
      var init := s[..|s| - 1];
      UnifiedAt(init);
      var c := MapChar(s[|s| - 1]);
      assert Unified(s) == Unified(init) + c;
      forall i | 0 <= i < |s|
        ensures Unified(s)[i] == MapChar(s[i])[0]
      {
        if i < |init| {
          assert s[i] == init[i];
        }
      }
    }
  }

  /** Unifying a unified string gives it back unchanged. */
  lemma UnifiedIdempotent(s: string)
    ensures Unified(Unified(s)) == Unified(s)
  {
    var u := Unified(s);
    UnifiedAt(s);
    UnifiedAt(u);
    forall i | 0 <= i < |u|
      ensures Unified(u)[i] == u[i]
    {
      MapCharIdempotent(s[i]);
    }
  }

  /** `unifyRegistrationNumber`: a null or empty number is returned as it is;
      otherwise each character is replaced by its mapping. */
  method UnifyRegistrationNumber(number: Option<string>) returns (r: Option<string>)
    ensures number.None? || number == Some("") ==> r == number
    ensures number.Some? ==> r == Some(Unified(number.value))
    ensures number.Some? ==> |r.value| == |number.value|
    ensures number.Some? ==> forall i :: 0 <= i < |number.value| ==> r.value[i] == MapChar(number.value[i])[0]
  {
    if number.None? || number.value == "" {
      return number;
    }
    var s := number.value;
    var unified := "";
    for i := 0 to |s|
      invariant unified == Unified(s[..i])
    {
      var c := MapChar(s[i]);
      assert s[..i + 1][..i] == s[..i];
      if |c| > 0 {
        unified := unified + c;
      }
    }
    assert s[..|s|] == s;
    UnifiedAt(s);
    return Some(unified);
  }
}
