/** The `YYYY-MM-DD` day key that a session is filed under: decimal rendering
    of the local year, month and day, month and day zero-padded to two places. */
module Dates {
  import opened Results

  predicate IsDigit(c: char) {
    '0' <= c <= '9'
  }

  predicate AllDigits(s: string) {
    forall i :: 0 <= i < |s| ==> IsDigit(s[i])
  }

  function DigitChar(d: nat): (c: char)
    requires d < 10
    ensures IsDigit(c)
  {
    ('0' as int + d) as char
  }

  function DigitValue(c: char): (d: nat)
    requires IsDigit(c)
    ensures d < 10 && DigitChar(d) == c
  {
    c as int - '0' as int
  }

  /** `String(n)` for a non-negative integer: its decimal digits without
      leading zeros. */
  function NatToString(n: nat): (s: string)
    ensures 1 <= |s|
    ensures AllDigits(s)
    ensures |s| > 1 ==> s[0] != '0'
    ensures n < 10 <==> |s| == 1
    ensures 10 <= n < 100 <==> |s| == 2
    decreases n
  {
    if n < 10 then [DigitChar(n)] else NatToString(n / 10) + [DigitChar(n % 10)]
  }

  /** The number a string of decimal digits denotes. */
  function ParseDigits(s: string): nat
    requires AllDigits(s)
  {
    if |s| == 0 then 0 else ParseDigits(s[..|s| - 1]) * 10 + DigitValue(s[|s| - 1])
  }

  /** Decimal rendering and parsing are inverse. */
  lemma {:induction false} NatToStringRoundTrip(n: nat)
    ensures ParseDigits(NatToString(n)) == n
    decreases n
  {
    if n >= 10 {
      NatToStringRoundTrip(n / 10);
      var s := NatToString(n);
      assert s[..|s| - 1] == NatToString(n / 10);
      assert DigitValue(s[|s| - 1]) == n % 10;
    }
  }

  /** `n` copies of `c`. */
  function Repeat(c: char, n: nat): (s: string)
    ensures |s| == n
    ensures forall i :: 0 <= i < n ==> s[i] == c
  {
    if n == 0 then [] else [c] + Repeat(c, n - 1)
  }

  /** `s.padStart(width, fill)` with a one-character fill string. */
  function PadStart(s: string, width: nat, fill: char): (r: string)
    ensures |s| >= width ==> r == s
    ensures |s| < width ==> |r| == width && r[width - |s|..] == s
    ensures forall i :: 0 <= i < |r| - |s| ==> r[i] == fill
  {
    if |s| >= width then s else Repeat(fill, width - |s|) + s
  }

  /** The `pad` helper: a number from 1 to 99 as exactly two digits. */
  function Pad2(n: nat): (r: string)
    requires 1 <= n < 100
    ensures |r| == 2 && AllDigits(r)
    ensures ParseDigits(r) == n
  {
    NatToStringRoundTrip(n);
    var r := PadStart(NatToString(n), 2, '0');
    if n < 10 then
      assert r[1..] == NatToString(n);
      assert r[..1] == "0";
      r
    else
      r
  }

  /** The day key of a local date; `month0` is the zero-based month that
      `getMonth()` returns. */
  function Ymd(year: nat, month0: nat, day: nat): (key: string)
    requires month0 < 12 && 1 <= day <= 31
    ensures |key| == |NatToString(year)| + 6
    ensures key[|key| - 6] == '-' && key[|key| - 3] == '-'
    ensures 1000 <= year < 10000 ==> |key| == 10
  {
    NatToString(year) + "-" + Pad2(month0 + 1) + "-" + Pad2(day)
  }

  /** Reads a day key back into (year, one-based month, day). */
  function ParseYmd(key: string): Option<(nat, nat, nat)> {
    if |key| < 7 then None
    else
      var y, mm, dd := key[..|key| - 6], key[|key| - 5..|key| - 3], key[|key| - 2..];
      if key[|key| - 6] == '-' && key[|key| - 3] == '-'
         && AllDigits(y) && AllDigits(mm) && AllDigits(dd)
      then Some((ParseDigits(y), ParseDigits(mm), ParseDigits(dd)))
      else None
  }

  /** The day key carries the year, the one-based month and the day. */
  lemma YmdRoundTrip(year: nat, month0: nat, day: nat)
    requires month0 < 12 && 1 <= day <= 31
    ensures ParseYmd(Ymd(year, month0, day)) == Some((year, month0 + 1, day))
  {
    var y, m, d := NatToString(year), Pad2(month0 + 1), Pad2(day);
    var key := Ymd(year, month0, day);
    assert key == y + "-" + m + "-" + d;
    assert key[..|key| - 6] == y;
    assert key[|key| - 5..|key| - 3] == m;
    assert key[|key| - 2..] == d;
    NatToStringRoundTrip(year);
  }
}
