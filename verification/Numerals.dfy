/** Numbers in decimal digits, as printf writes them and the programs read them. */
module Numerals {
  predicate IsDigit(c: char) {
    '0' <= c <= '9'
  }

  function Digit(d: int): (c: char)
    requires 0 <= d < 10
    ensures IsDigit(c) && c as int - '0' as int == d
  {
    (d + '0' as int) as char
  }

  function Decimal(n: nat): (s: string)
    ensures s != [] && IsDigit(s[0])
  {
    if n < 10 then [Digit(n)] else Decimal(n / 10) + [Digit(n % 10)]
  }

  predicate StartsWithDigit(s: string) {
    s != [] && IsDigit(s[0])
  }

  datatype Number = Number(value: int, rest: string)

  /** The loop that reads digits. */
  function ReadNumber(acc: int, s: string): Number
    decreases |s|
  {
    if StartsWithDigit(s) then ReadNumber(10 * acc + (s[0] as int - '0' as int), s[1..]) else Number(acc, s)
  }

  lemma {:induction false} DigitsReadBack(acc: int, s: string, d: string, rest: string)
    requires forall i :: 0 <= i < |d| ==> IsDigit(d[i])
    requires s == d + rest
    ensures ReadNumber(acc, s) == ReadNumber(Value(acc, d), rest)
    decreases |d|
  {
    if d == [] {
      assert s == rest;
    } else {
      assert s[1..] == d[1..] + rest;
      DigitsReadBack(10 * acc + (d[0] as int - '0' as int), s[1..], d[1..], rest);
    }
  }

  function Value(acc: int, d: string): int
    decreases |d|
  {
    if d == [] then acc else Value(10 * acc + (d[0] as int - '0' as int), d[1..])
  }

  lemma {:induction false} ValueOfLonger(acc: int, d: string, c: char)
    ensures Value(acc, d + [c]) == 10 * Value(acc, d) + (c as int - '0' as int)
    decreases |d|
  {
    if d == [] {
      assert [c][1..] == [];
      assert Value(acc, [c]) == Value(10 * acc + (c as int - '0' as int), []);
    } else {
      assert (d + [c])[1..] == d[1..] + [c];
      ValueOfLonger(10 * acc + (d[0] as int - '0' as int), d[1..], c);
    }
  }

  lemma {:induction false} ValueOfDecimal(n: nat)
    ensures Value(0, Decimal(n)) == n
    ensures forall i :: 0 <= i < |Decimal(n)| ==> IsDigit(Decimal(n)[i])
    decreases n
  {
    if n >= 10 {
      ValueOfDecimal(n / 10);
      ValueOfLonger(0, Decimal(n / 10), Digit(n % 10));
    } else {
      var s := [Digit(n)];
      assert s[1..] == [];
      assert Value(0, s) == Value(n, []);
    }
  }

  /** A number is read back from its digits, up to the first other character. */
  lemma NumberReadsBack(n: nat, rest: string)
    requires !StartsWithDigit(rest)
    ensures ReadNumber(0, Decimal(n) + rest) == Number(n, rest)
  {
    ValueOfDecimal(n);
    DigitsReadBack(0, Decimal(n) + rest, Decimal(n), rest);
  }

  /** %d */
  function Signed(n: int): string {
    if n < 0 then "-" + Decimal(-n) else Decimal(n)
  }

  lemma SignedIsUnique(m: int, n: int)
    requires Signed(m) == Signed(n)
    ensures m == n
  {
    ValueOfDecimal(if m < 0 then -m else m);
    ValueOfDecimal(if n < 0 then -n else n);
    if m < 0 { assert Signed(m)[1..] == Decimal(-m); }
    if n < 0 { assert Signed(n)[1..] == Decimal(-n); }
  }

  lemma SignedHasNo(n: int, c: char)
    requires !IsDigit(c) && c != '-'
    ensures c !in Signed(n)
  {
    ValueOfDecimal(if n < 0 then -n else n);
  }
}
