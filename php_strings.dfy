/**
 * PHP string helpers used by the core: `explode` / `implode` on a one-character
 * separator, the leading-integer reading PHP applies when it compares a string with a
 * number, and decimal rendering of integers.
 */
module PhpStrings {

  /** PHP `explode($c, $s)`: the pieces between occurrences of `c`, always at least one. */
  function Split(s: string, c: char): (r: seq<string>)
    ensures |r| >= 1
    ensures forall i :: 0 <= i < |r| ==> c !in r[i]
    ensures |Join(r, c)| == |s|
    decreases |s|
  {
    if s == [] then [""]
    else
      var rest := Split(s[1..], c);
      if s[0] == c then [""] + rest else [[s[0]] + rest[0]] + rest[1..]
  }

  /** PHP `implode($c, $xs)`. */
  function Join(xs: seq<string>, c: char): string
    decreases |xs|
  {
    if xs == [] then "" else if |xs| == 1 then xs[0] else xs[0] + [c] + Join(xs[1..], c)
  }

  /** Joining the pieces of a split gives the original string back. */
  lemma {:induction false} JoinSplit(s: string, c: char)
    ensures Join(Split(s, c), c) == s
    decreases |s|
  {
    if s != [] {
      JoinSplit(s[1..], c);
      var rest := Split(s[1..], c);
      if s[0] == c {
        assert Split(s, c) == [""] + rest;
        assert Join([""] + rest, c) == "" + [c] + Join(rest, c) by {
          assert ([""] + rest)[1..] == rest;
        }
        assert s == [s[0]] + s[1..];
      } else {
        var r := [[s[0]] + rest[0]] + rest[1..];
        assert Split(s, c) == r;
        if |rest| == 1 {
          assert Join(r, c) == [s[0]] + rest[0];
          assert s == [s[0]] + s[1..];
        } else {
          assert r[1..] == rest[1..];
          assert Join(rest, c) == rest[0] + [c] + Join(rest[1..], c);
          assert s == [s[0]] + s[1..];
        }
      }
    }
  }

  /** Splitting at the first separator of `a + [c] + b`, where `a` holds no separator. */
  lemma {:induction false} SplitAtFirst(a: string, c: char, b: string)
    requires c !in a
    ensures Split(a + [c] + b, c) == [a] + Split(b, c)
    decreases |a|
  {
    if a == [] {
      assert a + [c] + b == [c] + b;
      assert ([c] + b)[1..] == b;
    } else {
      SplitAtFirst(a[1..], c, b);
      assert (a + [c] + b)[1..] == a[1..] + [c] + b;
      assert [a[0]] + a[1..] == a;
    }
  }

  /** A string without the separator is one piece. */
  lemma {:induction false} SplitNoSeparator(a: string, c: char)
    requires c !in a
    ensures Split(a, c) == [a]
    decreases |a|
  {
    if a != [] {
      SplitNoSeparator(a[1..], c);
      assert [a[0]] + a[1..] == a;
    }
  }

  /** Splitting a join of separator-free pieces gives the pieces back. */
  lemma {:induction false} SplitJoin(xs: seq<string>, c: char)
    requires |xs| >= 1
    requires forall i :: 0 <= i < |xs| ==> c !in xs[i]
    ensures Split(Join(xs, c), c) == xs
    decreases |xs|
  {
    if |xs| == 1 {
      SplitNoSeparator(xs[0], c);
    } else {
      SplitJoin(xs[1..], c);
      SplitAtFirst(xs[0], c, Join(xs[1..], c));
      assert [xs[0]] + xs[1..] == xs;
    }
  }

  /** An implode of non-empty pieces is empty exactly when there are no pieces. */
  lemma JoinIsEmpty(xs: seq<string>, c: char)
    requires forall i :: 0 <= i < |xs| ==> xs[i] != ""
    ensures Join(xs, c) == "" <==> xs == []
  {
    if xs != [] {
      assert |xs[0]| > 0;
      assert Join(xs, c)[..|xs[0]|] == xs[0] || |xs| == 1;
    }
  }

  predicate IsDigit(ch: char) { '0' <= ch <= '9' }

  /** The white-space characters PHP skips in front of a numeric string. */
  predicate IsSpace(ch: char)
  {
    ch == ' ' || ch == '\t' || ch == '\n' || ch == '\r' || ch == '\U{B}' || ch == '\U{C}'
  }

  predicate AllDigits(d: string) { forall i :: 0 <= i < |d| ==> IsDigit(d[i]) }

  function SkipSpace(s: string): (r: string)
    ensures |r| <= |s| && r == s[|s| - |r|..]
    ensures r != [] ==> !IsSpace(r[0])
  {
    if |s| > 0 && IsSpace(s[0]) then SkipSpace(s[1..]) else s
  }

  /** The longest prefix of decimal digits. */
  function DigitRun(s: string): (d: string)
    ensures AllDigits(d) && d <= s
  {
    if |s| > 0 && IsDigit(s[0]) then [s[0]] + DigitRun(s[1..]) else ""
  }

  /** The value of a string of decimal digits. */
  function DecValue(d: string): nat
    requires AllDigits(d)
  {
    if d == [] then 0 else 10 * DecValue(d[..|d| - 1]) + (d[|d| - 1] as int - '0' as int)
  }

  /**
   * The integer PHP 5/7 reads from a string when comparing it with a number: leading
   * white space, an optional sign and the longest run of digits (0 when there are none).
   */
  function LeadingInt(s: string): int
  {
    var t := SkipSpace(s);
    if |t| > 0 && t[0] == '-' then -(DecValue(DigitRun(t[1..])) as int)
    else if |t| > 0 && t[0] == '+' then DecValue(DigitRun(t[1..]))
    else DecValue(DigitRun(t))
  }

  /** No digit follows the leading white space and the optional sign: "abc", " -x", "". */
  predicate NoLeadingNumber(s: string)
  {
    var t := SkipSpace(s);
    var u := if t != [] && (t[0] == '-' || t[0] == '+') then t[1..] else t;
    u == [] || !IsDigit(u[0])
  }

  /** Such a string reads as 0. */
  lemma NoLeadingNumberIsZero(s: string)
    requires NoLeadingNumber(s)
    ensures LeadingInt(s) == 0
  {
    var t := SkipSpace(s);
    if t != [] && (t[0] == '-' || t[0] == '+') {
      assert DigitRun(t[1..]) == "";
    } else {
      assert DigitRun(t) == "";
    }
  }

  /** A string that starts with a digit has a leading number. */
  lemma DigitStartHasLeadingNumber(s: string)
    requires |s| > 0 && IsDigit(s[0])
    ensures !NoLeadingNumber(s)
  {
    assert !IsSpace(s[0]);
    assert SkipSpace(s) == s;
  }

  /** Decimal digits of a natural number, without leading zeros. */
  function NatDigits(n: nat): (d: string)
    ensures AllDigits(d) && |d| >= 1
  {
    if n < 10 then [('0' as int + n) as char] else NatDigits(n / 10) + [('0' as int + n % 10) as char]
  }

  /** PHP's rendering of an integer as a string. */
  function Decimal(n: int): string
  {
    if n >= 0 then NatDigits(n) else "-" + NatDigits(-n)
  }

  lemma {:induction false} DecValueOfNatDigits(n: nat)
    ensures DecValue(NatDigits(n)) == n
  {
    if n >= 10 {
      DecValueOfNatDigits(n / 10);
      var d := NatDigits(n);
      assert d[..|d| - 1] == NatDigits(n / 10);
    }
  }

  lemma {:induction false} DigitRunOfDigits(d: string, t: string)
    requires AllDigits(d)
    requires t == [] || !IsDigit(t[0])
    ensures DigitRun(d + t) == d
    decreases |d|
  {
    if d == [] {
      assert d + t == t;
    } else {
      assert (d + t)[1..] == d[1..] + t;
      DigitRunOfDigits(d[1..], t);
      assert [d[0]] + d[1..] == d;
    }
  }

  /** Reading the leading integer of a rendered integer, followed by a non-digit, gives it back. */
  lemma LeadingIntOfDecimalPrefix(n: int, t: string)
    requires t == [] || !IsDigit(t[0])
    ensures LeadingInt(Decimal(n) + t) == n
  {
    var m: nat := if n >= 0 then n else -n;
    var d := NatDigits(m);
    if n >= 0 {
      LeadingIntOfDigits(d, t);
      DecValueOfNatDigits(m);
    } else {
      var s := "-" + d + t;
      assert Decimal(n) + t == s;
      assert s[0] == '-' && s[1..] == d + t;
      assert SkipSpace(s) == s;
      DigitRunOfDigits(d, t);
      DecValueOfNatDigits(m);
    }
  }

  lemma LeadingIntOfDigits(d: string, t: string)
    requires AllDigits(d) && |d| >= 1
    requires t == [] || !IsDigit(t[0])
    ensures LeadingInt(d + t) == DecValue(d)
  {
    var s := d + t;
    assert s[0] == d[0] && IsDigit(s[0]);
    assert SkipSpace(s) == s;
    DigitRunOfDigits(d, t);
  }

  lemma LeadingIntOfDecimal(n: int)
    ensures LeadingInt(Decimal(n)) == n
  {
    LeadingIntOfDecimalPrefix(n, "");
    assert Decimal(n) + "" == Decimal(n);
  }
}
