// Decimal text for integers: Python's str(int) and '{:02d}', and a plain
// reader of the decimal numbers those produce, used to state round trips.

module Decimal {

  import opened Common

  predicate IsDigit(c: char) {
    '0' <= c <= '9'
  }

  function Digit(d: nat): (c: char)
    requires d < 10
    ensures IsDigit(c) && c as int - '0' as int == d
  {
    ('0' as int + d) as char
  }

  predicate AllDigits(s: string) {
    forall i :: 0 <= i < |s| ==> IsDigit(s[i])
  }

  /** The value of a string of decimal digits. */
  function DigitsValue(s: string): nat
    requires AllDigits(s)
    decreases |s|
  {
    if s == [] then 0 else 10 * DigitsValue(s[..|s| - 1]) + (s[|s| - 1] as int - '0' as int)
  }

  /** str(n) for n >= 0: no leading zeros, "0" for zero. */
  function NatDigits(n: nat): (s: string)
    ensures s != [] && AllDigits(s)
    decreases n
  {
    if n < 10 then [Digit(n)] else NatDigits(n / 10) + [Digit(n % 10)]
  }

  /** str(n) */
  function IntToDecimal(n: int): string {
    if n < 0 then "-" + NatDigits(-n) else NatDigits(n)
  }

  /** '{:02d}'.format(n) for 0 <= n < 100. */
  function Pad2(n: nat): (s: string)
    requires n < 100
    ensures |s| == 2 && AllDigits(s)
  {
    [Digit(n / 10), Digit(n % 10)]
  }

  lemma {:induction false} NatDigitsValue(n: nat)
    ensures DigitsValue(NatDigits(n)) == n
    decreases n
  {
    if n >= 10 {
      NatDigitsValue(n / 10);
      var s := NatDigits(n);
      assert s[..|s| - 1] == NatDigits(n / 10);
    }
  }

  lemma Pad2Value(n: nat)
    requires n < 100
    ensures DigitsValue(Pad2(n)) == n
  {
    var s := Pad2(n);
    assert s[..1] == [Digit(n / 10)];
    assert [Digit(n / 10)][..0] == [];
    assert DigitsValue([Digit(n / 10)]) == n / 10;
    assert DigitsValue(s) == 10 * (n / 10) + n % 10;
  }

  /** An optional minus sign followed by one or more digits. */
  function PlainInt(s: string): (r: Option<int>)
    ensures r.Some? && s != [] && s[0] != '-' ==> r.value >= 0
  {
    if s != [] && s[0] == '-' then
      if s[1..] != [] && AllDigits(s[1..]) then Some(0 - DigitsValue(s[1..]) as int) else None
    else if s != [] && AllDigits(s) then Some(DigitsValue(s))
    else None
  }

  /** The position of the first '.', or the length. */
  function DotAt(s: string): (i: nat)
    ensures i <= |s|
    ensures forall k :: 0 <= k < i ==> s[k] != '.'
    ensures i < |s| ==> s[i] == '.'
    decreases |s|
  {
    if s == [] || s[0] == '.' then 0 else 1 + DotAt(s[1..])
  }

  function Pow10(k: nat): (p: nat)
    ensures p >= 1
  {
    if k == 0 then 1 else 10 * Pow10(k - 1)
  }

  /** Digits, optionally followed by '.' and more digits, as a non-negative value. */
  function UnsignedDecimal(s: string): Option<real> {
    var i := DotAt(s);
    var whole := s[..i];
    if whole == [] || !AllDigits(whole) then None
    else if i == |s| then Some(DigitsValue(whole) as real)
    else
      var frac := s[i + 1..];
      if frac == [] || !AllDigits(frac) then None
      else Some(DigitsValue(whole) as real + DigitsValue(frac) as real / Pow10(|frac|) as real)
  }

  /** A reader for the decimal numbers this model writes: an optional minus
      sign, digits, and an optional fraction. */
  function PlainDecimal(s: string): Option<real> {
    if s != [] && s[0] == '-' then
      match UnsignedDecimal(s[1..])
      case Some(v) => Some(-v)
      case None => None
    else UnsignedDecimal(s)
  }

  const PlainReaders := NumberReaders(PlainInt, PlainDecimal)

  /** Reading back what str(int) wrote gives the integer. */
  lemma IntToDecimalRoundTrip(n: int)
    ensures PlainInt(IntToDecimal(n)) == Some(n)
    ensures PlainDecimal(IntToDecimal(n)) == Some(n as real)
  {
    var m: nat := if n < 0 then -n else n;
    var s := NatDigits(m);
    NatDigitsValue(m);
    DotAtDigits(s);
    assert s[..|s|] == s;
    if n < 0 {
      assert ("-" + s)[1..] == s;
    } else {
      assert s[0] != '-' by {
        assert IsDigit(s[0]);
      }
    }
  }

  lemma DotAtDigits(s: string)
    requires AllDigits(s)
    ensures DotAt(s) == |s|
  {
    if DotAt(s) < |s| {
      assert IsDigit(s[DotAt(s)]);
    }
  }

  /** Reading "SS.CC" gives SS + CC/100. */
  lemma SecondsRoundTrip(s: nat, c: nat)
    requires s < 100 && c < 100
    ensures PlainDecimal(Pad2(s) + "." + Pad2(c)) == Some(s as real + c as real / 100.0)
  {
    var t := Pad2(s) + "." + Pad2(c);
    assert t[0] != '-' by {
      assert IsDigit(t[0]);
    }
    assert DotAt(t) == 2 by {
      assert t[0] != '.' && t[1] != '.' && t[2] == '.';
      assert DotAt(t[2..]) == 0;
      assert DotAt(t[1..]) == 1 by {
        assert t[1..][1..] == t[2..];
      }
    }
    assert t[..2] == Pad2(s);
    assert t[3..] == Pad2(c);
    Pad2Value(s);
    Pad2Value(c);
    assert Pow10(2) == 100;
  }
}
