/** Decimal numbers as Go's strconv writes and reads them. */
module Numbers {
  import opened Wrappers

  predicate IsDigit(c: char) { '0' <= c <= '9' }

  function Digit(n: nat): (c: char)
    requires n < 10
    ensures IsDigit(c) && c as int == '0' as int + n
  {
    ('0' as int + n) as char
  }

  function Itoa(n: nat): (s: string)
    ensures s != "" && forall i :: 0 <= i < |s| ==> IsDigit(s[i])
  {
    if n < 10 then [Digit(n)] else Itoa(n / 10) + [Digit(n % 10)]
  }

  predicate AllDigits(s: string) { forall i :: 0 <= i < |s| ==> IsDigit(s[i]) }

  function Value(s: string): nat
    requires AllDigits(s)
  {
    if s == "" then 0 else 10 * Value(s[..|s| - 1]) + (s[|s| - 1] as int - '0' as int)
  }

  const MaxInt: nat := 0x7FFF_FFFF_FFFF_FFFF

  // strconv.Atoi on a 64-bit machine: an optional sign, digits, and no overflow.
  function Atoi(s: string): Option<int> {
    var signed := s != "" && (s[0] == '+' || s[0] == '-');
    var digits := if signed then s[1..] else s;
    if digits == "" || !AllDigits(digits) then None
    else
      var v: int := Value(digits);
      if signed && s[0] == '-' then if v <= MaxInt + 1 then Some(-v) else None
      else if v <= MaxInt then Some(v) else None
  }

  lemma {:induction false} ValueItoa(n: nat)
    ensures Value(Itoa(n)) == n
  {
    if n >= 10 {
      ValueItoa(n / 10);
      var s := Itoa(n);
      assert s[..|s| - 1] == Itoa(n / 10);
    } else {
      assert Itoa(n)[..0] == "";
    }
  }

  lemma AtoiItoa(n: nat)
    ensures n <= MaxInt ==> Atoi(Itoa(n)) == Some(n)
    ensures n > MaxInt ==> Atoi(Itoa(n)) == None
  {
    ValueItoa(n);
    assert IsDigit(Itoa(n)[0]);
  }

  // With a sign, down to the least 64-bit number.
  lemma AtoiSigned(n: int)
    requires n >= 0
    ensures Atoi("+" + Itoa(n)) == Atoi(Itoa(n))
    ensures Atoi("-" + Itoa(n)) == if n <= MaxInt + 1 then Some(-n) else None
  {
    hide Itoa, Value;
    ValueItoa(n);
    assert ("+" + Itoa(n))[1..] == Itoa(n) && ("-" + Itoa(n))[1..] == Itoa(n);
    assert IsDigit(Itoa(n)[0]);
  }

  // Anything but digits after the sign is no number, and neither is a sign alone.
  lemma AtoiRefuses(s: string, i: nat)
    requires i < |s| && !IsDigit(s[i]) && (i > 0 || s[0] !in {'+', '-'} || |s| == 1)
    ensures Atoi(s) == None && Atoi("") == None
  {
    if s[0] in {'+', '-'} && |s| > 1 {
      assert s[1..][i - 1] == s[i];
    }
  }

  lemma ItoaInjective(m: nat, n: nat)
    ensures Itoa(m) == Itoa(n) ==> m == n
  {
    ValueItoa(m);
    ValueItoa(n);
  }

  lemma ThreeDigits(n: nat)
    requires 100 <= n <= 999
    ensures |Itoa(n)| == 3
  {
    assert |Itoa(n / 100)| == 1;
    assert n / 10 / 10 == n / 100;
    assert |Itoa(n / 10)| == 2;
  }
}
