/** The text of TestSession.runtime_str: Python's int() truncation, its
    flooring divmod, and the decimal rendering of non-negative integers
    with and without the two-digit zero padding of the ":02d" format. */
module Format {

  function Digit(d: nat): char
    requires d < 10
  {
    ('0' as int + d) as char
  }

  /** str(n) for a non-negative int. */
  function NatToString(n: nat): string
    decreases n
  {
    if n < 10 then [Digit(n)] else NatToString(n / 10) + [Digit(n % 10)]
  }

  predicate AllDigits(s: string) {
    forall i :: 0 <= i < |s| ==> '0' <= s[i] <= '9'
  }

  /** The value a string of decimal digits denotes. */
  function ValueOf(s: string): nat
    requires AllDigits(s)
  {
    if s == [] then 0 else ValueOf(s[..|s| - 1]) * 10 + (s[|s| - 1] as int - '0' as int)
  }

  /** str(n) is a non-empty string of digits without a leading zero (unless
      it is "0") that denotes n. */
  lemma {:induction false} NatToStringRoundTrip(n: nat)
    ensures var s := NatToString(n);
      && |s| >= 1 && AllDigits(s) && ValueOf(s) == n
      && (s[0] == '0' <==> n == 0)
    decreases n
  {
    if n >= 10 {
      NatToStringRoundTrip(n / 10);
      var s := NatToString(n);
      assert s[..|s| - 1] == NatToString(n / 10);
      assert s[0] == NatToString(n / 10)[0];
    }
  }

  /** f"{n:02d}" for 0 <= n < 100. */
  function Pad2(n: nat): string
    requires n < 100
  {
    if n < 10 then "0" + NatToString(n) else NatToString(n)
  }

  /** The padded field is exactly two digits and denotes n. */
  lemma Pad2Spec(n: nat)
    requires n < 100
    ensures |Pad2(n)| == 2 && AllDigits(Pad2(n)) && ValueOf(Pad2(n)) == n
  {
    var s := Pad2(n);
    if n >= 10 {
      assert NatToString(n / 10) == [Digit(n / 10)];
      assert s == [Digit(n / 10), Digit(n % 10)];
      assert s[..1] == [Digit(n / 10)];
      assert s[..1][..0] == [];
      assert ValueOf(s[..1]) == n / 10;
    } else {
      assert s[..1] == "0";
      assert ValueOf("0") == 0 by { assert "0"[..0] == []; }
    }
  }

  /** int(x): truncation toward zero. */
  function Trunc(x: real): int {
    if x >= 0.0 then x.Floor else -((-x).Floor)
  }

  /** Truncation drops the fraction and keeps the sign: the result is the
      integer nearest to zero that is less than one away from x. */
  lemma TruncSpec(x: real)
    ensures x >= 0.0 ==> 0.0 <= Trunc(x) as real <= x < Trunc(x) as real + 1.0
    ensures x < 0.0 ==> Trunc(x) as real - 1.0 < x <= Trunc(x) as real <= 0.0
  {
  }

  /** The runtime text for s whole seconds: divmod(s, 3600) then
      divmod(rem, 60), both flooring (Dafny's / and % agree with Python's
      for a positive divisor); the hours part only when h > 0. */
  function RuntimeStr(s: int): string {
    var h, rem := s / 3600, s % 3600;
    var m, sec := rem / 60, rem % 60;
    if h > 0 then NatToString(h) + "h " + Pad2(m) + "m " + Pad2(sec) + "s"
    else NatToString(m) + "m " + Pad2(sec) + "s"
  }

  /** The text always ends in the two-digit seconds field " SSs", which
      denotes s mod 60, the remainder a flooring divmod leaves. */
  lemma RuntimeStrSeconds(s: int)
    ensures var text := RuntimeStr(s);
      && |text| >= 6 && text[|text| - 1] == 's' && text[|text| - 4] == ' '
      && AllDigits(text[|text| - 3..|text| - 1]) && ValueOf(text[|text| - 3..|text| - 1]) == s % 60
  {
    var h, rem := s / 3600, s % 3600;
    var m, sec := rem / 60, rem % 60;
    assert sec == s % 60 by { DivModUnique(s, 60, 60 * h + m, sec); }
    Pad2Spec(sec);
    NatToStringRoundTrip(m);
    var text := RuntimeStr(s);
    assert text[|text| - 3..|text| - 1] == Pad2(sec);
  }

  /** Writing s as h hours, m minutes and sec seconds with minutes and
      seconds in [0, 60) determines the text: the fields divmod produces are
      the unique such decomposition, also for negative s. */
  lemma RuntimeStrFields(h: int, m: nat, sec: nat)
    requires m < 60 && sec < 60
    ensures RuntimeStr(3600 * h + 60 * m + sec) ==
      if h > 0 then NatToString(h) + "h " + Pad2(m) + "m " + Pad2(sec) + "s"
      else NatToString(m) + "m " + Pad2(sec) + "s"
  {
    var r := 60 * m + sec;
    DivModUnique(3600 * h + r, 3600, h, r);
    DivModUnique(r, 60, m, sec);
  }

  /** Floor division and remainder by a positive divisor are the unique
      quotient and remainder in [0, d). */
  lemma DivModUnique(s: int, d: int, q: int, r: int)
    requires d > 0 && 0 <= r < d && s == d * q + r
    ensures s / d == q && s % d == r
  {
    var q1, r1 := s / d, s % d;
    assert s == d * q1 + r1 && 0 <= r1 < d;
    assert d * (q1 - q) == r - r1;
    if q1 > q {
      MulAtLeast(d, q1 - q);
    } else if q1 < q {
      MulAtLeast(d, q - q1);
    }
  }

  lemma {:induction false} MulAtLeast(d: nat, k: nat)
    requires k >= 1
    ensures d * k >= d
    decreases k
  {
    if k > 1 {
      MulAtLeast(d, k - 1);
      assert d * k == d * (k - 1) + d;
    }
  }

  /** An hour, two minutes and five seconds. */
  lemma RuntimeStrHours()
    ensures RuntimeStr(3725) == "1h 02m 05s"
  {
    RuntimeStrFields(1, 2, 5);
    assert NatToString(1) == "1" && Pad2(2) == "02" && Pad2(5) == "05";
  }

  /** Under an hour the hours part is dropped and the minutes unpadded. */
  lemma RuntimeStrMinutes()
    ensures RuntimeStr(59) == "0m 59s"
  {
    RuntimeStrFields(0, 0, 59);
    assert NatToString(59) == NatToString(5) + [Digit(9)];
    assert NatToString(0) == "0" && Pad2(59) == "59";
  }

  /** No runtime at all. */
  lemma RuntimeStrZero()
    ensures RuntimeStr(0) == "0m 00s"
  {
    RuntimeStrFields(0, 0, 0);
    assert NatToString(0) == "0" && Pad2(0) == "00";
  }

  /** A clock that ran one second backwards floors to -1 hours, 59
      minutes and 59 seconds, and prints without the hours part. */
  lemma RuntimeStrNegative()
    ensures RuntimeStr(-1) == "59m 59s"
  {
    RuntimeStrFields(-1, 59, 59);
    assert NatToString(59) == NatToString(5) + [Digit(9)];
    assert NatToString(59) == "59" && Pad2(59) == "59";
  }
}
