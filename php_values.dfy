/**
 * The few PHP value semantics the persistence core relies on: loosely typed values,
 * `empty()`, the loose comparison `== 0`, and the ASCII `ucfirst` / `lcfirst` used to
 * build accessor names.
 */
module PhpValues {
  import PhpStrings

  /** A PHP scalar as it appears in a row, a property slot or a field set. */
  datatype Value = Null | Bool(b: bool) | Int(i: int) | Str(s: string)

  /** PHP `empty($v)` on a scalar: null, false, 0, "" and "0" are empty. */
  predicate IsEmpty(v: Value)
  {
    match v
    case Null => true
    case Bool(b) => !b
    case Int(i) => i == 0
    case Str(s) => s == "" || s == "0"
  }

  /** PHP 5/7 loose comparison `$v == 0`: a string is compared by its leading integer. */
  predicate IsLooseZero(v: Value)
  {
    match v
    case Null => true
    case Bool(b) => !b
    case Int(i) => i == 0
    case Str(s) => PhpStrings.LeadingInt(s) == 0
  }

  /** Every empty value is loosely equal to zero (the converse fails, e.g. for "abc"). */
  lemma EmptyIsLooseZero(v: Value)
    ensures IsEmpty(v) ==> IsLooseZero(v)
  {
    if v == Str("0") {
      var z := "0";
      assert PhpStrings.AllDigits(z) && z + "" == z;
      PhpStrings.LeadingIntOfDigits(z, "");
      assert z[..|z| - 1] == "";
    }
  }

  /**
   * A non-empty string with no digit after its leading white space and optional sign, such
   * as "abc" or "-x", is loosely zero without being empty.
   */
  lemma LooseZeroNotEmpty(s: string)
    requires s != "" && PhpStrings.NoLeadingNumber(s)
    ensures IsLooseZero(Str(s)) && !IsEmpty(Str(s))
  {
    PhpStrings.NoLeadingNumberIsZero(s);
    PhpStrings.DigitStartHasLeadingNumber("0");
  }

  predicate IsLowerAscii(c: char) { 'a' <= c <= 'z' }
  predicate IsUpperAscii(c: char) { 'A' <= c <= 'Z' }

  /** The string begins with an upper-case ASCII letter. */
  predicate StartsUpper(p: string) { p != [] && IsUpperAscii(p[0]) }

  /** PHP `ucfirst`: upper-cases an initial ASCII letter. */
  function Ucfirst(s: string): string
  {
    if |s| > 0 && IsLowerAscii(s[0]) then [(s[0] as int - 32) as char] + s[1..] else s
  }

  /** PHP `lcfirst`: lower-cases an initial ASCII letter. */
  function Lcfirst(s: string): string
  {
    if |s| > 0 && IsUpperAscii(s[0]) then [(s[0] as int + 32) as char] + s[1..] else s
  }

  /**
   * `lcfirst(ucfirst($p))` gives back `$p` exactly when `$p` does not begin with an
   * upper-case ASCII letter; otherwise it gives `$p` with that letter lowered.
   */
  lemma LcfirstUcfirst(p: string)
    ensures Lcfirst(Ucfirst(p)) == p <==> !StartsUpper(p)
    ensures StartsUpper(p) ==> Lcfirst(Ucfirst(p)) == Lcfirst(p)
  {
    if p != [] {
      assert Lcfirst(Ucfirst(p))[1..] == p[1..];
    }
  }
}
