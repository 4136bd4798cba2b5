/** Decimal numerals and their readers. */
module Decimals {
  import opened Text
  import opened Wrappers

  function Digit(d: nat): char
    requires d < 10
  {
    ('0' as int + d) as char
  }

  function Decimal(n: nat): (s: string)
    ensures s != "" && forall c | c in s :: '0' <= c <= '9'
  {
    if n < 10 then [Digit(n)] else Decimal(n / 10) + [Digit(n % 10)]
  }

  function ReadDecimal(s: string): Option<nat> {
    if s == "" || !('0' <= s[|s| - 1] <= '9') then None
    else
      var d := s[|s| - 1] as int - '0' as int;
      if |s| == 1 then Some(d)
      else
        var r := ReadDecimal(s[..|s| - 1]);
        if r.None? then None else Some(10 * r.value + d)
  }

  lemma {:induction false} DecimalRoundTrip(n: nat)
    ensures ReadDecimal(Decimal(n)) == Some(n)
  {
    if n >= 10 {
      DecimalRoundTrip(n / 10);
      var s := Decimal(n);
      assert s[..|s| - 1] == Decimal(n / 10);
    }
  }

  const SECOND := 1_000_000_000

  function PowerOfTen(n: nat): nat {
    if n == 0 then 1 else 10 * PowerOfTen(n - 1)
  }

  /** Reads a number of seconds with at most nine places as nanoseconds. */
  function ReadSeconds(s: string): Option<nat> {
    var point := IndexOf(s, '.');
    if point.None? then
      var n := ReadDecimal(s);
      if n.None? then None else Some(n.value * SECOND)
    else
      var whole, places := ReadDecimal(s[..point.value]), s[point.value + 1..];
      var fraction := ReadDecimal(places);
      if whole.None? || fraction.None? || |places| > 9 then None
      else Some(whole.value * SECOND + fraction.value * PowerOfTen(9 - |places|))
  }

  /** A text of whole seconds. */
  lemma WholeSeconds(s: string, n: nat)
    requires '.' !in s && ReadDecimal(s) == Some(n)
    ensures ReadSeconds(s) == Some(n * SECOND)
  {
  }

  /** A text of whole seconds and places, with the point at k. */
  lemma SecondsAtPoint(s: string, k: nat, n: nat, f: nat)
    requires IndexOf(s, '.') == Some(k) && k < |s| && |s| - k <= 10
    requires ReadDecimal(s[..k]) == Some(n) && ReadDecimal(s[k + 1..]) == Some(f)
    ensures ReadSeconds(s) == Some(n * SECOND + f * PowerOfTen(10 + k - |s|))
  {
  }
}
