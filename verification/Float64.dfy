/** `strconv.ParseFloat` on a decimal number of a JSON text, as far as the range of a float64 goes. */
module Float64 {
  import opened Strings
  import opened Decimal

  function Pow(base: nat, n: nat): nat {
    if n == 0 then 1 else base * Pow(base, n - 1)
  }

  /** Halfway between the largest float64 and the next power of two, where rounding to even leaves the range. */
  predicate BelowLimit(n: nat, scale: nat) {
    n < (Pow(2, 1024) - Pow(2, 970)) * scale
  }

  /** The digits of an exponent, which are no longer added once ten thousand is reached. */
  function ReadExponent(s: string): nat
    requires AllDigits(s)
  {
    if s == "" then 0
    else
      var high := ReadExponent(s[..|s| - 1]);
      if high < 10000 then high * 10 + (s[|s| - 1] as int - '0' as int) else high
  }

  /** The first `e` or `E`, or the length. */
  function ExponentAt(s: string): (r: nat)
    ensures r <= |s|
  {
    var small, capital := IndexOf(s, 'e'), IndexOf(s, 'E');
    if small < capital then small else capital
  }

  predicate Signed(s: string) {
    s != "" && (s[0] == '-' || s[0] == '+')
  }

  function Unsigned(s: string): string {
    if Signed(s) then s[1..] else s
  }

  /** The digits in front of the point and behind it, times ten to `exponent`, or divided by it. */
  predicate InRange(whole: string, fraction: string, negative: bool, exponent: nat)
    requires AllDigits(whole) && AllDigits(fraction)
  {
    var scale := (if negative then -(exponent as int) else exponent) - |fraction|;
    if scale >= 0 then BelowLimit(Value(whole + fraction) * Pow(10, scale), 1)
    else BelowLimit(Value(whole + fraction), Pow(10, -scale))
  }

  /** The number has a float64; a text that is no number does not occur where this is asked. */
  predicate Fits(digits: string) {
    var s := Unsigned(digits);
    var at := ExponentAt(s);
    var point := IndexOf(s[..at], '.');
    var whole, fraction := s[..point], if point < at then s[point + 1..at] else "";
    var power := if at < |s| then s[at + 1..] else "";
    AllDigits(whole) && AllDigits(fraction) && AllDigits(Unsigned(power)) ==>
      InRange(whole, fraction, power != "" && power[0] == '-', ReadExponent(Unsigned(power)))
  }

  lemma {:induction false} PowPositive(base: nat, n: nat)
    requires base > 0
    ensures Pow(base, n) > 0
  {
    if n > 0 { PowPositive(base, n - 1); }
  }

  lemma Regroup(x: nat, y: nat, z: nat)
    ensures x * (y * z) == x * y * z
  {
  }

  lemma {:induction false} PowAdds(base: nat, a: nat, b: nat)
    ensures Pow(base, a + b) == Pow(base, a) * Pow(base, b)
  {
    if a > 0 {
      PowAdds(base, a - 1, b);
      Regroup(base, Pow(base, a - 1), Pow(base, b));
    }
  }

  lemma PowGrows(base: nat, a: nat, b: nat)
    requires base > 0 && a <= b
    ensures Pow(base, a) <= Pow(base, b)
  {
    hide Pow;
    PowAdds(base, a, b - a);
    PowPositive(base, a);
    PowPositive(base, b - a);
  }

  lemma ThreeMore(n: nat)
    ensures Pow(2, n + 3) == 8 * Pow(2, n) && Pow(2, n + 4) == 16 * Pow(2, n)
  {
    assert Pow(2, n + 1) == 2 * Pow(2, n);
    assert Pow(2, n + 2) == 2 * Pow(2, n + 1);
    assert Pow(2, n + 3) == 2 * Pow(2, n + 2);
    assert Pow(2, n + 4) == 2 * Pow(2, n + 3);
  }

  lemma {:induction false} TenIsBetween(n: nat)
    ensures Pow(2, 3 * n) <= Pow(10, n) <= Pow(2, 4 * n)
  {
    if n > 0 {
      TenIsBetween(n - 1);
      assert Pow(10, n) == 10 * Pow(10, n - 1);
      hide Pow;
      ThreeMore(3 * (n - 1));
      ThreeMore(4 * (n - 1));
    }
  }

  lemma {:induction false} ValueBound(s: string)
    requires AllDigits(s)
    ensures Value(s) < Pow(10, |s|)
  {
    if s != "" { ValueBound(s[..|s| - 1]); }
  }

  lemma {:induction false} NoSuch(s: string, c: char)
    requires c !in s
    ensures IndexOf(s, c) == |s|
  {
    if s != "" { NoSuch(s[1..], c); }
  }

  lemma LimitIsLarge()
    ensures Pow(2, 1020) <= Pow(2, 1024) - Pow(2, 970) <= Pow(2, 1024)
    ensures Pow(10, 0) == 1
  {
    PowAdds(2, 1023, 1);
    PowGrows(2, 970, 1023);
    PowGrows(2, 1020, 1023);
    PowPositive(2, 970);
  }

  /** A row of up to 255 digits is in range. */
  lemma DigitRowsFit(s: string)
    requires AllDigits(s) && |s| <= 255
    ensures Fits(s)
  {
    hide Pow, Value, IndexOf;
    assert Unsigned(s) == s;
    NoSuch(s, 'e');
    NoSuch(s, 'E');
    assert s[..|s|] == s;
    NoSuch(s, '.');
    assert s + "" == s;
    ValueBound(s);
    TenIsBetween(|s|);
    PowGrows(2, 4 * |s|, 1020);
    LimitIsLarge();
  }

  lemma HugeReads()
    ensures ExponentAt("1e999") == 1 && IndexOf("1", '.') == 1
    ensures ReadExponent("999") == 999 && Value("1") == 1
  {
    var s, power := "1e999", "999";
    assert IndexOf(s, 'e') == 1;
    NoSuch(s, 'E');
    NoSuch("1", '.');
    assert power[..2] == "99" && "99"[..1] == "9";
    assert ReadExponent("9") == 9;
    assert ReadExponent("99") == 99;
  }

  /** Ten to the power of 999 is out of range. */
  lemma HugeIsOut()
    ensures !Fits("1e999")
  {
    hide Pow, ExponentAt, ReadExponent, IndexOf, Value;
    var s, power := "1e999", "999";
    HugeReads();
    assert s[..1] == "1" && s[2..] == power && "1"[..1] == "1";
    assert "1" + "" == "1";
    TenIsBetween(999);
    PowGrows(2, 1024, 3 * 999);
    LimitIsLarge();
  }
}
