/**
 * Integer parsing shared by the repository's year filters and the year
 * validator.  It stands for Go's `strconv.Atoi` on a 64-bit platform: an
 * optional sign followed by at least one decimal digit, within the range of
 * a 64-bit signed integer.  The rest of the model only uses that a string
 * either parses to one integer or does not.
 */
module Utils {
  import opened Wrappers

  const MinInt64: int := -0x8000_0000_0000_0000
  const MaxInt64: int := 0x7fff_ffff_ffff_ffff

  predicate IsDigit(c: char) {
    '0' <= c <= '9'
  }

  /** Value of a non-empty run of decimal digits, most significant first. */
  function DigitsValue(s: string): nat
    requires forall i :: 0 <= i < |s| ==> IsDigit(s[i])
  {
    if s == [] then 0
    else
      assert IsDigit(s[|s| - 1]);
      DigitsValue(s[..|s| - 1]) * 10 + (s[|s| - 1] as int - '0' as int)
  }

  function ParseDigits(s: string): Option<nat> {
    if s != [] && forall i :: 0 <= i < |s| ==> IsDigit(s[i]) then Some(DigitsValue(s)) else None
  }

  /** `strconv.Atoi`: `None` plays the role of a non-nil error. */
  function ParseInt(s: string): (r: Option<int>)
    ensures s == [] ==> r == None
    ensures r.Some? ==> MinInt64 <= r.value <= MaxInt64
  {
    var signed := |s| > 0 && (s[0] == '+' || s[0] == '-');
    var digits := ParseDigits(if signed then s[1..] else s);
    if digits.None? then None
    else
      var v := if signed && s[0] == '-' then -(digits.value as int) else digits.value as int;
      if MinInt64 <= v <= MaxInt64 then Some(v) else None
  }

  /** `IsValidYear`: the year string parses as an integer. */
  predicate IsValidYear(year: string) {
    ParseInt(year).Some?
  }
}
