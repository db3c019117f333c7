/**
 * Base-36 numerals as produced by `Number.prototype.toString(36)` for
 * non-negative integers: digits 0-9 then a-z, most significant first, no
 * leading zeros. New part types are named `<numeral>.ldr`.
 */
module Base36 {

  const Radix := 36
  const Extension := ".ldr"

  predicate IsDigit(c: char) {
    ('0' <= c <= '9') || ('a' <= c <= 'z')
  }

  /** The character for a digit value below 36. */
  function Digit(d: nat): (c: char)
    requires d < Radix
    ensures IsDigit(c)
  {
    if d < 10 then (48 + d) as char else (97 + d - 10) as char
  }

  /** The value of a digit character; the inverse of Digit. */
  function DigitValue(c: char): (d: nat)
    requires IsDigit(c)
    ensures d < Radix && Digit(d) == c
  {
    if '0' <= c <= '9' then (c as int - 48) else (c as int - 97 + 10)
  }

  /** n.toString(36) */
  function ToBase36(n: nat): (s: string)
    decreases n
  {
    if n < Radix then [Digit(n)] else ToBase36(n / Radix) + [Digit(n % Radix)]
  }

  /** Reads a numeral back, most significant digit first. */
  function FromBase36(s: string): nat
    requires forall i :: 0 <= i < |s| ==> IsDigit(s[i])
  {
    if s == [] then 0 else FromBase36(s[..|s| - 1]) * Radix + DigitValue(s[|s| - 1])
  }

  /** The numeral is a non-empty run of digits without a leading zero. */
  lemma {:induction false} ToBase36Canonical(n: nat)
    ensures |ToBase36(n)| >= 1
    ensures forall i :: 0 <= i < |ToBase36(n)| ==> IsDigit(ToBase36(n)[i])
    ensures |ToBase36(n)| > 1 ==> ToBase36(n)[0] != '0'
    decreases n
  {
    if n >= Radix {
      ToBase36Canonical(n / Radix);
      var s := ToBase36(n / Radix);
      assert ToBase36(n) == s + [Digit(n % Radix)];
      if |s| == 1 {
        assert s[0] == Digit(n / Radix) && n / Radix >= 1;
      }
    }
  }

  /** Reading back the numeral of n gives n. */
  lemma {:induction false} FromToBase36(n: nat)
    ensures forall i :: 0 <= i < |ToBase36(n)| ==> IsDigit(ToBase36(n)[i])
    ensures FromBase36(ToBase36(n)) == n
    decreases n
  {
    ToBase36Canonical(n);
    var s := ToBase36(n);
    if n < Radix {
      assert s[..0] == [];
    } else {
      FromToBase36(n / Radix);
      assert s[..|s| - 1] == ToBase36(n / Radix);
    }
  }

  /** The name generateNextID tries for counter value n. */
  function PartName(n: nat): string {
    ToBase36(n) + Extension
  }

  /** Recovers the counter value from a generated name. */
  function CounterOf(name: string): nat
    requires |name| > |Extension|
    requires forall i :: 0 <= i < |name| - |Extension| ==> IsDigit(name[i])
  {
    FromBase36(name[..|name| - |Extension|])
  }

  /** Generated names decode to their counter value, so distinct counters give distinct names. */
  lemma PartNameRoundTrip(n: nat)
    ensures |PartName(n)| > |Extension|
    ensures forall i :: 0 <= i < |PartName(n)| - |Extension| ==> IsDigit(PartName(n)[i])
    ensures CounterOf(PartName(n)) == n
  {
    FromToBase36(n);
    ToBase36Canonical(n);
    assert PartName(n)[..|PartName(n)| - |Extension|] == ToBase36(n);
  }

  lemma PartNameInjective(m: nat, n: nat)
    ensures PartName(m) == PartName(n) ==> m == n
  {
    PartNameRoundTrip(m);
    PartNameRoundTrip(n);
  }
}
