/** Decimal rendering of indices, as used in node ids and paging cursors. */
module Decimal {
  import opened Common

  predicate IsDigit(c: char) {
    '0' <= c <= '9'
  }

  function Digit(d: nat): char
    requires d < 10
  {
    '0' + d as char
  }

  /** The shortest decimal numeral of `n`. */
  function Numeral(n: nat): (s: string)
    ensures |s| > 0 && forall i | 0 <= i < |s| :: IsDigit(s[i])
  {
    if n < 10 then [Digit(n)] else Numeral(n / 10) + [Digit(n % 10)]
  }

  /** The number a nonempty digit string denotes. */
  function Parse(s: string): (n: Option<nat>)
  {
    if s == [] || !IsDigit(s[|s| - 1]) then None
    else
      var last := (s[|s| - 1] - '0') as nat;
      if |s| == 1 then Some(last)
      else match Parse(s[..|s| - 1])
        case None => None
        case Some(front) => Some(10 * front + last)
  }

  /** Numerals are read back unchanged, hence different numbers have different
      numerals. */
  lemma {:induction false} NumeralRoundTrip(n: nat)
    ensures Parse(Numeral(n)) == Some(n)
  {
    if n < 10 {
    } else {
      NumeralRoundTrip(n / 10);
      assert Numeral(n)[..|Numeral(n)| - 1] == Numeral(n / 10);
    }
  }

  function PowerOfTen(k: nat): nat {
    if k == 0 then 1 else 10 * PowerOfTen(k - 1)
  }

  /** The positional value of the first `n` digits of a string of `|s|`. */
  function PlaceValue(s: string, n: nat): nat
    requires n <= |s| && forall i | 0 <= i < |s| :: IsDigit(s[i])
  {
    if n == 0 then 0 else PlaceValue(s, n - 1) + (s[n - 1] - '0') as nat * PowerOfTen(|s| - n)
  }

  lemma {:induction false} PlaceValueShifted(s: string, t: string, n: nat)
    requires n <= |s| && |t| == |s| + 1 && t[..|s|] == s
    requires (forall i | 0 <= i < |s| :: IsDigit(s[i])) && forall i | 0 <= i < |t| :: IsDigit(t[i])
    ensures PlaceValue(t, n) == 10 * PlaceValue(s, n)
  {
    if n == 0 {
    } else {
      PlaceValueShifted(s, t, n - 1);
      assert t[n - 1] == s[n - 1];
      assert PowerOfTen(|t| - n) == 10 * PowerOfTen(|s| - n);
    }
  }

  /** A numeral denotes its number in the decimal place-value system, and only the
      numeral of zero begins with a zero. */
  lemma {:induction false} NumeralIsPositional(n: nat)
    ensures PlaceValue(Numeral(n), |Numeral(n)|) == n
    ensures Numeral(n)[0] == '0' <==> n == 0
  {
    var s := Numeral(n);
    if n < 10 {
      assert PlaceValue(s, 0) == 0;
    } else {
      var front := Numeral(n / 10);
      NumeralIsPositional(n / 10);
      assert s[..|front|] == front;
      PlaceValueShifted(front, s, |front|);
    }
  }
}
