/** The semester label of server.cjs: `toRomanNumeral(parseInt(semester) || semester)`. */
module Semester {
  import opened Optional
  import opened JsString

  /** The portal's spelling of the semesters one to eight. */
  const Ordinals: seq<string> := ["Ist", "IInd", "IIIrd", "IVth", "Vth", "VIth", "VIIth", "VIIIth"]

  /** `romanNumerals[num] || num.toString()`: a number outside 1..8 has no
      entry and falls back to its decimal string. */
  function ToRomanNumeral(num: int): (name: string)
    ensures 1 <= num <= |Ordinals| ==> name == Ordinals[num - 1]
    ensures !(1 <= num <= |Ordinals|) ==> ParseInt(name) == Some(num)
  {
    if 1 <= num <= |Ordinals| then Ordinals[num - 1]
    else
      ParseIntOfNumberToString(num);
      NumberToString(num)
  }

  /** The label the root server searches for. A missing semester makes
      `undefined.toString()` throw before any reply is sent (None). A value
      that parses to a non-zero number is labelled by that number; otherwise
      (NaN, or zero, which is falsy) the raw string is used unchanged. */
  function SemesterLabel(semester: Option<string>): (name: Option<string>)
    ensures name.None? <==> semester.None?
    ensures semester.Some? && ParseInt(semester.value).None? ==> name == semester
  {
    match semester
    case None => None
    case Some(s) =>
      var n := ParseInt(s);
      if n.Some? && n.value != 0 then Some(ToRomanNumeral(n.value)) else Some(s)
  }

  /** An ordinal label starts with a Roman letter and a fallback label with a
      digit or a minus sign, so the two kinds of label never collide. */
  lemma RomanLabelKinds(num: int)
    ensures ToRomanNumeral(num) != []
    ensures ToRomanNumeral(num)[0] in {'I', 'V'} <==> 1 <= num <= 8
    ensures !(1 <= num <= 8) ==> ToRomanNumeral(num) == NumberToString(num)
  {
    if !(1 <= num <= 8) {
      var d := if num < 0 then -num else num;
      DigitsShape(d);
    }
  }

  /** Different semester numbers get different labels. */
  lemma ToRomanNumeralInjective(a: int, b: int)
    requires ToRomanNumeral(a) == ToRomanNumeral(b)
    ensures a == b
  {
    RomanLabelKinds(a);
    RomanLabelKinds(b);
    if !(1 <= a <= 8) && !(1 <= b <= 8) {
      NumberToStringInjective(a, b);
    }
  }

  /** A semester sent as a positive decimal number is labelled as
      toRomanNumeral labels that number. */
  lemma SemesterLabelOfNumber(n: nat)
    requires n > 0
    ensures SemesterLabel(Some(NumberToString(n))) == Some(ToRomanNumeral(n))
  {
    DigitsShape(n);
    ParseIntOfDecimal(Digits(n));
    DigitsValue(n);
  }
}
