/** The string operations of the Go library that the modelled code relies on. */
module Text {

  datatype Option<T> = None | Some(value: T)

  // ---------- Lengths ----------

  /** The length of a text in bytes, in UTF-8. */
  function Size(s: string): (n: nat)
    ensures |s| <= n <= 4 * |s|
  {
    if s == "" then 0
    else
      var c := s[0] as int;
      Size(s[1..]) + if c < 0x80 then 1 else if c < 0x800 then 2 else if c < 0x1_0000 then 3 else 4
  }

  /** It is the number of characters exactly for texts of ASCII. */
  lemma {:induction false} SizeIsLength(s: string)
    ensures Size(s) == |s| <==> forall c :: c in s ==> c as int < 0x80
  {
    if s != "" {
      SizeIsLength(s[1..]);
      assert s == [s[0]] + s[1..];
      assert forall c :: c in s <==> c == s[0] || c in s[1..];
      assert s[0] in s;
    }
  }

  // ---------- Separators ----------

  lemma FirstAt(c: char, s: string, a: string, x: string)
    requires s == a + [c] + x && c !in a
    ensures |a| < |s| && s[|a|] == c && a == s[..|a|] && x == s[|a| + 1..]
    ensures forall i :: 0 <= i < |s| && s[i] == c ==> |a| <= i
  {
    assert forall i :: 0 <= i < |a| ==> s[i] == a[i];
  }

  lemma LastAt(c: char, s: string, x: string, a: string)
    requires s == x + [c] + a && c !in a
    ensures |x| < |s| && s[|x|] == c && x == s[..|x|] && a == s[|x| + 1..]
    ensures forall i :: 0 <= i < |s| && s[i] == c ==> i <= |x|
  {
    assert forall i :: |x| < i < |s| ==> s[i] == a[i - |x| - 1];
  }

  /** The text before the first separator determines the rest. */
  lemma FirstSeparator(c: char, a: string, x: string, b: string, y: string)
    requires a + [c] + x == b + [c] + y
    requires c !in a && c !in b
    ensures a == b && x == y
  {
    FirstAt(c, a + [c] + x, a, x);
    FirstAt(c, a + [c] + x, b, y);
  }

  /** So does the text after the last one. */
  lemma LastSeparator(c: char, x: string, a: string, y: string, b: string)
    requires x + [c] + a == y + [c] + b
    requires c !in a && c !in b
    ensures a == b && x == y
  {
    LastAt(c, x + [c] + a, x, a);
    LastAt(c, x + [c] + a, y, b);
  }

  // ---------- Decimal numbers ----------

  function Digit(d: int): char
    requires 0 <= d < 10
  {
    "0123456789"[d]
  }

  predicate IsDigit(c: char) {
    '0' <= c <= '9'
  }

  function DigitValue(c: char): int
    requires IsDigit(c)
  {
    c as int - '0' as int
  }

  function NatText(n: nat): (s: string)
    ensures s != "" && forall c :: c in s ==> IsDigit(c)
  {
    if n < 10 then [Digit(n)] else NatText(n / 10) + [Digit(n % 10)]
  }

  /** The verb %d. */
  function IntText(n: int): string {
    if n < 0 then "-" + NatText(-n) else NatText(n)
  }

  /** The value of a run of digits. */
  function NatValue(s: string): nat
    requires forall c :: c in s ==> IsDigit(c)
  {
    if s == "" then 0 else 10 * NatValue(s[..|s| - 1]) + DigitValue(s[|s| - 1])
  }

  lemma {:induction false} NatTextValue(n: nat)
    ensures NatValue(NatText(n)) == n
  {
    if n >= 10 {
      NatTextValue(n / 10);
      assert NatText(n)[..|NatText(n)| - 1] == NatText(n / 10);
    } else {
      assert NatText(n)[..0] == "";
    }
  }

  /** The length of the longest prefix of digits. */
  function DigitRun(s: string): (n: nat)
    ensures n <= |s| && (forall c :: c in s[..n] ==> IsDigit(c)) && (n < |s| ==> !IsDigit(s[n]))
  {
    if s == "" || !IsDigit(s[0]) then 0
    else
      assert s[..1 + DigitRun(s[1..])] == [s[0]] + s[1..][..DigitRun(s[1..])];
      1 + DigitRun(s[1..])
  }

  /** The number that a text starts with, if it starts with a digit. */
  function ScanNat(s: string): Option<int> {
    var n := DigitRun(s);
    if n == 0 then None else Some(NatValue(s[..n]))
  }

  function Negated(v: Option<int>): Option<int> {
    match v
    case None => None
    case Some(n) => Some(-n)
  }

  /** Scanning a number: an optional sign and the digits that follow it, whatever comes after. */
  function ScanInt(s: string): Option<int> {
    if s != "" && s[0] == '-' then Negated(ScanNat(s[1..]))
    else if s != "" && s[0] == '+' then ScanNat(s[1..])
    else ScanNat(s)
  }

  lemma {:induction false} DigitRunOf(digits: string, rest: string)
    requires forall c :: c in digits ==> IsDigit(c)
    requires rest == "" || !IsDigit(rest[0])
    ensures DigitRun(digits + rest) == |digits| && (digits + rest)[..|digits|] == digits
  {
    if digits == "" {
      assert digits + rest == rest;
    } else {
      assert (digits + rest)[1..] == digits[1..] + rest;
      assert digits[0] in digits;
      DigitRunOf(digits[1..], rest);
    }
  }

  lemma ScanNatText(n: nat, rest: string)
    requires rest == "" || !IsDigit(rest[0])
    ensures ScanNat(NatText(n) + rest) == Some(n)
    ensures (NatText(n) + rest)[0] != '-' && (NatText(n) + rest)[0] != '+'
  {
    NatTextValue(n);
    DigitRunOf(NatText(n), rest);
    assert NatText(n)[0] in NatText(n);
  }

  lemma ScanNegative(digits: string, rest: string)
    ensures ScanInt(("-" + digits) + rest) == Negated(ScanNat(digits + rest))
  {
    assert (("-" + digits) + rest)[1..] == digits + rest;
  }

  /** A printed number is read back from any text it starts, unless another digit follows. */
  lemma ScanIntText(n: int, rest: string)
    requires rest == "" || !IsDigit(rest[0])
    ensures ScanInt(IntText(n) + rest) == Some(n)
  {
    var digits := NatText(if n < 0 then -n else n);
    ScanNatText(if n < 0 then -n else n, rest);
    if n < 0 {
      ScanNegative(digits, rest);
      calc {
        ScanInt(IntText(n) + rest);
        ScanInt(("-" + digits) + rest);
        Negated(ScanNat(digits + rest));
        Negated(Some(-n));
        Some(n);
      }
    } else {
      calc {
        ScanInt(IntText(n) + rest);
        ScanInt(digits + rest);
        ScanNat(digits + rest);
        Some(n);
      }
    }
  }

  lemma IntTextInjective(m: int, n: int)
    requires IntText(m) == IntText(n)
    ensures m == n
  {
    ScanIntText(m, "");
    ScanIntText(n, "");
  }

  lemma IntTextChars(n: int)
    ensures forall c :: c in IntText(n) ==> c == '-' || IsDigit(c)
  {
  }
}
