/** Display keys of action items: `ACTION-` followed by a number in decimal. */
module DisplayKeys {

  const DIGITS := "0123456789"

  predicate IsDigit(c: char) { '0' <= c <= '9' }

  function Decimal(n: nat): (s: string)
    ensures s != [] && forall i | 0 <= i < |s| :: IsDigit(s[i])
  {
    if n < 10 then [DIGITS[n]] else Decimal(n / 10) + [DIGITS[n % 10]]
  }

  /** The number a string of digits reads as. */
  function NumberOf(s: string): nat {
    if s == "" then 0
    else
      var front := NumberOf(s[..|s| - 1]);
      10 * front + (if IsDigit(s[|s| - 1]) then (s[|s| - 1] - '0') as nat else 0)
  }

  /** A number reads as itself, with no nought in front of a larger one. */
  lemma {:induction false} DecimalReadsBack(n: nat)
    ensures NumberOf(Decimal(n)) == n && (n > 0 ==> Decimal(n)[0] != '0')
  {
    var s := Decimal(n);
    if n >= 10 {
      DecimalReadsBack(n / 10);
      assert s[..|s| - 1] == Decimal(n / 10);
    } else {
      assert s[..|s| - 1] == "" && NumberOf("") == 0;
    }
  }

  /** The ten digits. */
  lemma DigitsAre(c: char)
    ensures IsDigit(c) <==> c in DIGITS
  {
    if IsDigit(c) { assert DIGITS[(c - '0') as int] == c; }
  }

  /** Different numbers are written differently. */
  lemma {:induction false} DecimalInjective(m: nat, n: nat)
    requires Decimal(m) == Decimal(n)
    ensures m == n
  {
    var s, t := Decimal(m), Decimal(n);
    assert s[|s| - 1] == DIGITS[m % 10] && t[|t| - 1] == DIGITS[n % 10];
    if m >= 10 && n >= 10 {
      assert s[..|s| - 1] == Decimal(m / 10) && t[..|t| - 1] == Decimal(n / 10);
      DecimalInjective(m / 10, n / 10);
    }
  }

  function ActionKey(n: nat): string { "ACTION-" + Decimal(n) }

  lemma ActionKeyInjective(m: nat, n: nat)
    requires ActionKey(m) == ActionKey(n)
    ensures m == n
  {
    assert ActionKey(m)[7..] == Decimal(m) && ActionKey(n)[7..] == Decimal(n);
    DecimalInjective(m, n);
  }
}
