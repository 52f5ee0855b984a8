/** Decimal numerals. */
module Numbers {

  predicate IsDigit(c: char) { '0' <= c <= '9' }

  function DigitValue(c: char): nat { if IsDigit(c) then c as int - '0' as int else 0 }

  function Decimal(s: string): nat {
    if s == "" then 0 else 10 * Decimal(s[..|s| - 1]) + DigitValue(s[|s| - 1])
  }

  function Digits(n: nat): (s: string)
    ensures s != "" && forall i :: 0 <= i < |s| ==> IsDigit(s[i])
    ensures Decimal(s) == n
  {
    if n < 10 then
      assert Decimal([('0' as int + n) as char]) == n by { assert [('0' as int + n) as char][..0] == ""; }
      [('0' as int + n) as char]
    else
      var d := ('0' as int + n % 10) as char;
      assert (Digits(n / 10) + [d])[..|Digits(n / 10)|] == Digits(n / 10);
      Digits(n / 10) + [d]
  }
}
