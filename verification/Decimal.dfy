/** Decimal notation of natural numbers: `strconv.Itoa`, and the value of a row of digits. */
module Decimal {
  predicate IsDigit(c: char) {
    '0' <= c <= '9'
  }

  predicate AllDigits(s: string) {
    forall i :: 0 <= i < |s| ==> IsDigit(s[i])
  }

  function Value(s: string): nat
    requires AllDigits(s)
  {
    if s == "" then 0 else Value(s[..|s| - 1]) * 10 + (s[|s| - 1] as int - '0' as int)
  }

  function WriteNumber(n: nat): (s: string)
    ensures s != "" && AllDigits(s) && Value(s) == n && (|s| > 1 ==> s[0] != '0') && (s[0] == '0' ==> n == 0)
  {
    if n < 10 then [('0' as int + n) as char]
    else
      var high := WriteNumber(n / 10);
      var s := high + [('0' as int + n % 10) as char];
      assert s[..|s| - 1] == high;
      s
  }
}
