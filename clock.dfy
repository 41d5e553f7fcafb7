// The digital read-out of the watch: `pad` and the `hh:mm:ss` text.

module Clock {

  predicate IsDigit(c: char)
  {
    '0' <= c <= '9'
  }

  predicate AllDigits(s: string)
  {
    forall i :: 0 <= i < |s| ==> IsDigit(s[i])
  }

  function DigitChar(d: int): (c: char)
    requires 0 <= d < 10
    ensures IsDigit(c)
  {
    "0123456789"[d]
  }

  function DigitValue(c: char): (d: int)
    requires IsDigit(c)
    ensures 0 <= d < 10
  {
    c as int - '0' as int
  }

  /** `String(n)` for a non-negative integer: its decimal digits, no leading zero. */
  function Digits(n: nat): (s: string)
    ensures |s| >= 1 && AllDigits(s)
    ensures n < 10 <==> |s| == 1
    ensures n >= 1 ==> s[0] != '0'
  {
    if n < 10 then [DigitChar(n)] else Digits(n / 10) + [DigitChar(n % 10)]
  }

  /** The number a string of decimal digits denotes. */
  function Value(s: string): nat
    requires AllDigits(s)
  {
    if s == [] then 0 else Value(s[..|s| - 1]) * 10 + DigitValue(s[|s| - 1])
  }

  /** `pad(n)`: `String(n).padStart(2, '0')`. */
  function Pad(n: nat): (r: string)
    ensures AllDigits(r)
    ensures |r| == if n < 10 then 2 else |Digits(n)|
    ensures n < 10 ==> r[0] == '0'
  {
    var s := Digits(n);
    if |s| < 2 then "0" + s else s
  }

  lemma {:induction false} ValueOfDigits(n: nat)
    ensures Value(Digits(n)) == n
  {
    if n >= 10 {
      ValueOfDigits(n / 10);
      var s := Digits(n);
      assert s[..|s| - 1] == Digits(n / 10);
    }
  }

  lemma {:induction false} LeadingZero(s: string)
    requires AllDigits(s)
    ensures AllDigits("0" + s) && Value("0" + s) == Value(s)
  {
    var z := "0" + s;
    assert AllDigits(z) by {
      forall i | 0 <= i < |z| ensures IsDigit(z[i]) {
        if i > 0 { assert z[i] == s[i - 1]; }
      }
    }
    if s != [] {
      assert z[..|z| - 1] == "0" + s[..|s| - 1];
      LeadingZero(s[..|s| - 1]);
    }
  }

  /** Padding never changes the number shown. */
  lemma PadRoundTrip(n: nat)
    ensures Value(Pad(n)) == n
  {
    ValueOfDigits(n);
    if n < 10 {
      LeadingZero(Digits(n));
    }
  }

  /** The mini read-out text: `pad(h) + ':' + pad(m) + ':' + pad(s)`. */
  function FormatTime(h: nat, m: nat, s: nat): (r: string)
    ensures forall i :: 0 <= i < |r| ==> (r[i] == ':' <==> i == |Pad(h)| || i == |Pad(h)| + 1 + |Pad(m)|)
    ensures forall i :: 0 <= i < |r| && r[i] != ':' ==> IsDigit(r[i])
  {
    Pad(h) + ":" + Pad(m) + ":" + Pad(s)
  }

  /** For clock values (hours below 24, minutes and seconds below 60) the text is
      eight characters, colons at positions 2 and 5, and each two-digit field
      reads back as its value. */
  lemma {:induction false} FormatTimeFields(h: nat, m: nat, s: nat)
    requires h < 24 && m < 60 && s < 60
    ensures |FormatTime(h, m, s)| == 8
    ensures FormatTime(h, m, s)[2] == ':' && FormatTime(h, m, s)[5] == ':'
    ensures AllDigits(FormatTime(h, m, s)[0..2]) && Value(FormatTime(h, m, s)[0..2]) == h
    ensures AllDigits(FormatTime(h, m, s)[3..5]) && Value(FormatTime(h, m, s)[3..5]) == m
    ensures AllDigits(FormatTime(h, m, s)[6..8]) && Value(FormatTime(h, m, s)[6..8]) == s
  {
    TwoDigits(h);
    TwoDigits(m);
    TwoDigits(s);
    JoinedFields(Pad(h), Pad(m), Pad(s));
    PadRoundTrip(h);
    PadRoundTrip(m);
    PadRoundTrip(s);
  }

  /** Three two-character fields joined by colons sit at 0..2, 3..5 and 6..8. */
  lemma JoinedFields(a: string, b: string, c: string)
    requires |a| == 2 && |b| == 2 && |c| == 2
    ensures var t := a + ":" + b + ":" + c;
            |t| == 8 && t[2] == ':' && t[5] == ':' && t[0..2] == a && t[3..5] == b && t[6..8] == c
  {
    var t := a + ":" + b + ":" + c;
    assert t[0..2] == a;
    assert t[3..5] == b;
    assert t[6..8] == c;
  }

  lemma {:induction false} TwoDigits(n: nat)
    requires n < 100
    ensures |Pad(n)| == 2
  {
    if n >= 10 {
      assert Digits(n / 10) == [DigitChar(n / 10)];
    }
  }
}
