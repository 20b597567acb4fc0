/** Decimal numbers as the C library prints and reads them: "%d", atoi and atoll. */
module Numbers {
  predicate IsDigit(c: char) {
    '0' <= c <= '9'
  }

  function Digit(d: nat): (c: char)
    requires d < 10
    ensures IsDigit(c)
  {
    '0' + d as char
  }

  function Digits(n: nat): string {
    if n < 10 then [Digit(n)] else Digits(n / 10) + [Digit(n % 10)]
  }

  /** "%d" */
  function Itoa(n: int): string {
    if n < 0 then "-" + Digits(-n) else Digits(n)
  }

  /** The number spelled by the leading digits, behind digits worth `acc`. */
  function Number(s: string, acc: nat): nat {
    if s != "" && IsDigit(s[0]) then Number(s[1..], 10 * acc + (s[0] - '0') as nat) else acc
  }

  function Pow10(k: nat): nat {
    if k == 0 then 1 else 10 * Pow10(k - 1)
  }

  /** A number has at most k digits exactly when it is below the k-th power of ten. */
  lemma {:induction false} DigitsFit(n: nat, k: nat)
    requires 0 < k
    ensures |Digits(n)| <= k <==> n < Pow10(k)
    ensures Digits(n) != "" && forall i :: 0 <= i < |Digits(n)| ==> IsDigit(Digits(n)[i])
    decreases n
  {
    assert Pow10(k) == 10 * Pow10(k - 1);
    if n >= 10 {
      if k > 1 {
        DigitsFit(n / 10, k - 1);
      } else {
        DigitsFit(n / 10, 1);
      }
    } else {
      PowPositive(k - 1);
    }
  }

  lemma {:induction false} PowPositive(k: nat)
    ensures 0 < Pow10(k)
  {
    if k > 0 {
      PowPositive(k - 1);
    }
  }

  lemma {:induction false} NumberAppend(s: string, d: nat, acc: nat)
    requires d < 10 && forall i :: 0 <= i < |s| ==> IsDigit(s[i])
    ensures Number(s + [Digit(d)], acc) == 10 * Number(s, acc) + d
  {
    var t := s + [Digit(d)];
    if s == "" {
      assert t[1..] == "";
    } else {
      assert t[1..] == s[1..] + [Digit(d)];
      NumberAppend(s[1..], d, 10 * acc + (s[0] - '0') as nat);
    }
  }

  lemma {:induction false} NumberOfDigits(n: nat)
    ensures Number(Digits(n), 0) == n
  {
    if n >= 10 {
      NumberOfDigits(n / 10);
      DigitsFit(n / 10, 1);
      NumberAppend(Digits(n / 10), n % 10, 0);
    }
  }

  /** What is no digit ends a number. */
  lemma {:induction false} NumberStops(s: string, rest: string, acc: nat)
    requires (forall i :: 0 <= i < |s| ==> IsDigit(s[i])) && (rest == "" || !IsDigit(rest[0]))
    ensures Number(s + rest, acc) == Number(s, acc)
  {
    if s == "" {
      assert s + rest == rest;
    } else {
      assert (s + rest)[1..] == s[1..] + rest;
      NumberStops(s[1..], rest, 10 * acc + (s[0] - '0') as nat);
    }
  }

  lemma NextDigit(n: nat, d: nat, s: string)
    requires 0 < n && d < 10 && s != "" && Digits(n) == s[..|s| - 1] && s[|s| - 1] == Digit(d)
    ensures Digits(10 * n + d) == s
  {
  }

  /** All ten digits, and a sign. */
  lemma DecimalDigits()
    ensures Itoa(1234567890) == "1234567890" && Itoa(-7) == "-7"
  {
    NextDigit(1, 2, "12");
    NextDigit(12, 3, "123");
    NextDigit(123, 4, "1234");
    NextDigit(1234, 5, "12345");
    NextDigit(12345, 6, "123456");
    NextDigit(123456, 7, "1234567");
    NextDigit(1234567, 8, "12345678");
    NextDigit(12345678, 9, "123456789");
    NextDigit(123456789, 0, "1234567890");
  }
}
