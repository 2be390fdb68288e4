/** Decimal numerals, filled into a twenty-byte buffer from the right. */
module Decimal {

  const BUFFER: nat := 20

  predicate IsDigit(c: char) { '0' <= c <= '9' }

  function DigitChar(d: int): char
    requires 0 <= d < 10
  {
    '0' + d as char
  }

  function Itoa(n: nat): (s: string)
    ensures s != ""
  {
    if n < 10 then [DigitChar(n)] else Itoa(n / 10) + [DigitChar(n % 10)]
  }

  predicate AllDigits(s: string) { forall k | 0 <= k < |s| :: IsDigit(s[k]) }

  function Atoi(s: string): nat
    requires AllDigits(s)
  {
    if s == "" then 0 else 10 * Atoi(s[..|s| - 1]) + (s[|s| - 1] - '0') as nat
  }

  /** Reading a numeral back gives the number. */
  lemma {:induction false} ItoaRoundTrip(n: nat)
    ensures AllDigits(Itoa(n)) && Atoi(Itoa(n)) == n
  {
    if n < 10 {
      assert Itoa(n)[..0] == "";
    } else {
      ItoaRoundTrip(n / 10);
      assert Itoa(n)[..|Itoa(n)| - 1] == Itoa(n / 10);
    }
  }

  lemma ItoaIsInjective(a: nat, b: nat)
    ensures Itoa(a) == Itoa(b) ==> a == b
  {
    ItoaRoundTrip(a);
    ItoaRoundTrip(b);
  }

  // ---- the buffer is wide enough ----

  function PowerOfTen(k: nat): nat { if k == 0 then 1 else 10 * PowerOfTen(k - 1) }

  lemma {:induction false} WidthBound(n: nat, k: nat)
    requires k >= 1 && n < PowerOfTen(k)
    ensures |Itoa(n)| <= k
  {
    if n >= 10 {
      assert k >= 2;
      WidthBound(n / 10, k - 1);
    }
  }

  lemma {:induction false} PowerAdds(j: nat, k: nat)
    ensures PowerOfTen(j + k) == PowerOfTen(j) * PowerOfTen(k)
  {
    if j > 0 {
      PowerAdds(j - 1, k);
    }
  }

  lemma MachineIntegersFit(n: nat)
    requires n < 0x8000_0000_0000_0000
    ensures |Itoa(n)| <= BUFFER
  {
    assert PowerOfTen(5) == 100000 by {
      assert PowerOfTen(3) == 1000;
    }
    PowerAdds(5, 5);
    PowerAdds(10, 10);
    WidthBound(n, 20);
  }

  /** Digits are written from the right end of the buffer; the numeral is what was filled. */
  method Format(n: nat) returns (s: string)
    requires n < 0x8000_0000_0000_0000
    ensures s == Itoa(n)
  {
    if n == 0 {
      assert Itoa(0) == ['0'];
      return "0";
    }
    MachineIntegersFit(n);
    var buf := new char[BUFFER];
    var pos, left := BUFFER, n;
    while left > 0
      invariant 0 <= pos <= BUFFER && left >= 0
      invariant left > 0 ==> |Itoa(left)| <= pos && Itoa(n) == Itoa(left) + buf[pos..]
      invariant left == 0 ==> Itoa(n) == buf[pos..]
    {
      ghost var done := buf[pos..];
      pos := pos - 1;
      buf[pos] := DigitChar(left % 10);
      assert buf[pos..] == [DigitChar(left % 10)] + done;
      left := left / 10;
    }
    s := buf[pos..];
  }
}
