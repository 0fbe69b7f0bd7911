/** Automatic numbering: a counter per field, shown with a prefix and leading zeros. */
module AutoNumbers {

  function Digit(d: nat): char
    requires d < 10
  {
    ('0' as int + d) as char
  }

  function Digits(n: nat): (s: string)
    ensures s != "" && (s[0] == '0' ==> n == 0)
    decreases n
  {
    if n < 10 then [Digit(n)] else Digits(n / 10) + [Digit(n % 10)]
  }

  predicate AllDigits(s: string) {
    forall k :: 0 <= k < |s| ==> '0' <= s[k] <= '9'
  }

  lemma {:induction false} DigitsAreDigits(n: nat)
    ensures AllDigits(Digits(n))
    decreases n
  {
    if n >= 10 { DigitsAreDigits(n / 10); }
  }

  lemma DigitsOfZero(n: nat)
    ensures Digits(n)[0] == '0' ==> n == 0 && |Digits(n)| == 1
  {
  }

  /** `padStart` with zeros. */
  function Padded(s: string, width: int): (r: string)
    ensures |r| >= |s|
    decreases width - |s|
  {
    if |s| >= width then s else Padded("0" + s, width)
  }

  function FormatAutoNumber(n: nat, prefix: string, padding: int): (s: string)
    ensures s != ""
  {
    prefix + (if padding > 0 then Padded(Digits(n), padding) else Digits(n))
  }

  /** Padding adds digits, and none beyond the width. */
  lemma {:induction false} PaddedTo(s: string, width: int)
    requires AllDigits(s)
    ensures AllDigits(Padded(s, width)) && |Padded(s, width)| >= width
    ensures |Padded(s, width)| > width ==> Padded(s, width) == s
    decreases width - |s|
  {
    if |s| < width { PaddedTo("0" + s, width); }
  }

  /** The number a digit text stands for. */
  function ValueOf(s: string): int {
    if s == "" then 0 else 10 * ValueOf(s[..|s| - 1]) + (s[|s| - 1] as int - '0' as int)
  }

  lemma {:induction false} ValueOfDigits(n: nat)
    ensures ValueOf(Digits(n)) == n
    decreases n
  {
    if n >= 10 {
      var s := Digits(n / 10) + [Digit(n % 10)];
      assert s[..|s| - 1] == Digits(n / 10);
      ValueOfDigits(n / 10);
    }
  }

  lemma {:induction false} ZeroInFront(s: string)
    ensures ValueOf("0" + s) == ValueOf(s)
  {
    if s == "" {
      assert "0" + s == "0";
      assert ValueOf("0"[..0]) == 0;
    } else {
      assert ("0" + s)[..|s|] == "0" + s[..|s| - 1];
      ZeroInFront(s[..|s| - 1]);
    }
  }

  lemma {:induction false} ValueOfPadded(s: string, width: int)
    ensures ValueOf(Padded(s, width)) == ValueOf(s)
    decreases width - |s|
  {
    if |s| < width {
      ValueOfPadded("0" + s, width);
      ZeroInFront(s);
    }
  }

  /** With one prefix and padding, different counters give different labels. */
  lemma LabelsDiffer(m: nat, n: nat, prefix: string, padding: int)
    requires FormatAutoNumber(m, prefix, padding) == FormatAutoNumber(n, prefix, padding)
    ensures m == n
  {
    var a := if padding > 0 then Padded(Digits(m), padding) else Digits(m);
    var b := if padding > 0 then Padded(Digits(n), padding) else Digits(n);
    assert a == FormatAutoNumber(m, prefix, padding)[|prefix|..];
    assert b == FormatAutoNumber(n, prefix, padding)[|prefix|..];
    ValueOfDigits(m);
    ValueOfDigits(n);
    ValueOfPadded(Digits(m), padding);
    ValueOfPadded(Digits(n), padding);
  }
}
