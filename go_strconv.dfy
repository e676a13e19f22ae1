/** The part of Go's `strconv` package the merge-request link parser uses:
    `strconv.Atoi` on a 64-bit platform, where `int` is a signed 64-bit integer,
    and `strconv.Itoa`, its inverse on that range. */
module GoStrconv {
  import opened Wrappers

  /** Bounds of Go's 64-bit `int`. */
  const MinInt: int := -0x8000_0000_0000_0000
  const MaxInt: int := 0x7fff_ffff_ffff_ffff

  predicate IsDigit(c: char) {
    '0' <= c <= '9'
  }

  predicate AllDigits(s: string) {
    forall i :: 0 <= i < |s| ==> IsDigit(s[i])
  }

  /** The base-10 value of a run of ASCII digits, leading zeros allowed. */
  function DigitsValue(s: string): nat
    requires AllDigits(s)
  {
    if s == [] then 0 else DigitsValue(s[..|s| - 1]) * 10 + (s[|s| - 1] as int - '0' as int)
  }

  /** `strconv.Atoi(s)`: an optional `+` or `-` sign, then one or more ASCII
      digits, whose value must fit in a 64-bit `int`; anything else (the empty
      string, a lone sign, any other character, an overflow) is an error,
      modelled as `None`. */
  function Atoi(s: string): (r: Option<int>)
    ensures r.Some? ==> MinInt <= r.value <= MaxInt
    ensures s == [] ==> r == None
    ensures (exists i :: 0 <= i < |s| && s[i] == '/') ==> r == None
  {
    if |s| == 0 then None
    else
      var digits := if s[0] == '-' || s[0] == '+' then s[1..] else s;
      if |digits| == 0 || !AllDigits(digits) then None
      else
        var magnitude: int := DigitsValue(digits);
        var v := if s[0] == '-' then -magnitude else magnitude;
        if MinInt <= v <= MaxInt then Some(v) else None
  }

  function DigitChar(d: nat): (c: char)
    requires d < 10
    ensures IsDigit(c) && c as int - '0' as int == d
  {
    (d + '0' as int) as char
  }

  /** The canonical decimal digits of a natural number. */
  function NatDigits(n: nat): (s: string)
    ensures |s| > 0 && AllDigits(s)
  {
    if n < 10 then [DigitChar(n)] else NatDigits(n / 10) + [DigitChar(n % 10)]
  }

  /** `strconv.Itoa(n)`: a minus sign for negative numbers, then the digits. */
  function Itoa(n: int): string
  {
    if n < 0 then "-" + NatDigits(-n) else NatDigits(n)
  }

  lemma {:induction false} NatDigitsValue(n: nat)
    ensures DigitsValue(NatDigits(n)) == n
  {
    if n >= 10 {
      var s := NatDigits(n);
      assert s[..|s| - 1] == NatDigits(n / 10);
      NatDigitsValue(n / 10);
    }
  }

  /** `Atoi` reads back every 64-bit integer that `Itoa` writes. */
  lemma AtoiItoa(n: int)
    requires MinInt <= n <= MaxInt
    ensures Atoi(Itoa(n)) == Some(n)
  {
    var s := Itoa(n);
    if n < 0 {
      var d := NatDigits(-n);
      assert s == "-" + d;
      assert s[0] == '-' && s[1..] == d;
      NatDigitsValue(-n);
    } else {
      var d := NatDigits(n);
      assert s == d && IsDigit(s[0]);
      NatDigitsValue(n);
    }
  }

  /** Any character that is not a digit, except a sign in the first position,
      makes `Atoi` refuse the whole text (`42?x=1`, `abc`, `4 2`, `--1`). */
  lemma AtoiRefuses(s: string, i: nat)
    requires i < |s| && !IsDigit(s[i])
    requires i > 0 || (s[0] != '-' && s[0] != '+')
    ensures Atoi(s) == None
  {
    if s[0] == '-' || s[0] == '+' {
      assert s[i] == s[1..][i - 1];
    }
  }

  /** What `Atoi` gives for an optional sign followed by one or more digits:
      the signed value of the digits, leading zeros and a `+` allowed, when it
      fits in a 64-bit `int`, and an error otherwise. */
  lemma AtoiValue(sign: string, digits: string)
    requires sign == "" || sign == "+" || sign == "-"
    requires |digits| > 0 && AllDigits(digits)
    ensures var magnitude: int := DigitsValue(digits);
            var v := if sign == "-" then -magnitude else magnitude;
            Atoi(sign + digits) == if MinInt <= v <= MaxInt then Some(v) else None
  {
    var s := sign + digits;
    assert s[|sign|..] == digits;
    if sign == "" {
      assert s == digits && IsDigit(s[0]);
    } else {
      assert s[0] == sign[0];
    }
  }

  /** A run of digits whose value exceeds the 64-bit range is refused, with or
      without a sign: `9223372036854775808` and `-9223372036854775809`. */
  lemma AtoiOverflow(sign: string, digits: string)
    requires sign == "" || sign == "+" || sign == "-"
    requires |digits| > 0 && AllDigits(digits)
    requires if sign == "-" then DigitsValue(digits) > -MinInt else DigitsValue(digits) > MaxInt
    ensures Atoi(sign + digits) == None
  {
    AtoiValue(sign, digits);
  }

  /** Texts an id may hold: a query string, a lone sign and an empty text are
      refused; a sign, `+` and leading zeros are read. */
  lemma AtoiExamples()
    ensures Atoi("42?x=1") == None
    ensures Atoi("-") == None && Atoi("+") == None && Atoi("") == None
    ensures Atoi("-3") == Some(-3)
    ensures Atoi("+42") == Some(42)
    ensures Atoi("007") == Some(7)
  {
    AtoiRefuses("42?x=1", 2);
    AtoiValue("-", "3");
    AtoiValue("+", "42");
    AtoiValue("", "007");
  }

  /** `Itoa` writes no `/`, so the text it writes ends a path segment exactly. */
  lemma ItoaNoSlash(n: int)
    ensures '/' !in Itoa(n)
  {
    var s := NatDigits(if n < 0 then -n else n);
    assert forall i :: 0 <= i < |s| ==> s[i] != '/';
  }
}
