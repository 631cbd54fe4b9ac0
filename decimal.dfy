/** The indexer returns its integer fields as base-10 text; the client reads
    them with `parseInt` (trade and referral counts, timestamps) or with
    `bigNumberify` (volumes, amounts and USD values, kept exact). On digit
    text both give the number the digits write; integers are unbounded here,
    as `bigNumberify` is. */
module Decimal {

  predicate IsDigit(c: char) {
    '0' <= c <= '9'
  }

  predicate AllDigits(s: string) {
    forall k :: 0 <= k < |s| ==> IsDigit(s[k])
  }

  /** Non-empty base-10 digit text, the form of the indexer's integer fields. */
  type DecimalText = s: string | |s| > 0 && AllDigits(s) witness "0"

  const DIGITS: string := "0123456789"

  /** The number written by digit text, most significant digit first. */
  function DigitsValue(s: string): nat
    requires AllDigits(s)
  {
    if s == [] then 0 else 10 * DigitsValue(s[..|s| - 1]) + (s[|s| - 1] as nat - '0' as nat)
  }

  /** `bigNumberify(s)`, and `parseInt(s)` where the value is small enough. */
  function ParseDecimal(s: DecimalText): nat
  {
    DigitsValue(s)
  }

  /** The canonical base-10 text of `n`, without leading zeros. */
  function ToDecimal(n: nat): (s: DecimalText)
    ensures s[0] != '0' || n == 0
    ensures |s| == 1 || s[0] != '0'
  {
    if n < 10 then [DIGITS[n]] else ToDecimal(n / 10) + [DIGITS[n % 10]]
  }

  /** Parsing undoes printing. */
  lemma {:induction false} ParseToDecimal(n: nat)
    ensures ParseDecimal(ToDecimal(n)) == n
  {
    var s := ToDecimal(n);
    DigitCharValue(n % 10);
    if n >= 10 {
      ParseToDecimal(n / 10);
      assert s[..|s| - 1] == ToDecimal(n / 10);
    } else {
      DigitCharValue(n);
      assert s == [DIGITS[n]];
      assert s[..0] == [];
      assert DigitsValue(s) == 10 * DigitsValue([]) + (DIGITS[n] as nat - '0' as nat);
    }
  }

  lemma DigitCharValue(d: nat)
    requires d < 10
    ensures DIGITS[d] as nat - '0' as nat == d
  {
  }
}
