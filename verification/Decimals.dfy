/** Decimal printing and parsing as `strconv` does it. */
module Decimals {
  import opened Wrappers

  /** The largest value of Go's 64-bit `int`. */
  const MAX_INT := 0x7FFF_FFFF_FFFF_FFFF

  predicate AreDigits(d: seq<int>) {
    forall i :: 0 <= i < |d| ==> 0 <= d[i] < 10
  }

  function Digits(n: nat): (d: seq<int>)
    ensures AreDigits(d) && d != []
  {
    if n < 10 then [n] else Digits(n / 10) + [n % 10]
  }

  function Value(d: seq<int>): nat
    requires AreDigits(d)
  {
    if d == [] then 0 else 10 * Value(d[..|d| - 1]) + d[|d| - 1]
  }

  lemma {:induction false} ValueOfDigits(n: nat)
    ensures Value(Digits(n)) == n
  {
    if n < 10 {
      assert Digits(n)[..0] == [];
    } else {
      ValueOfDigits(n / 10);
      assert Digits(n)[..|Digits(n)| - 1] == Digits(n / 10);
    }
  }

  predicate IsDigit(c: char) { '0' <= c <= '9' }

  function DigitChar(d: int): (c: char)
    requires 0 <= d < 10
    ensures IsDigit(c)
  {
    ('0' as int + d) as char
  }

  function DigitValue(c: char): (d: int)
    requires IsDigit(c)
    ensures 0 <= d < 10 && DigitChar(d) == c
  {
    c as int - '0' as int
  }

  /** `%d` of a non-negative number. */
  function Itoa(n: nat): (s: string)
    ensures |s| == |Digits(n)| && forall i :: 0 <= i < |s| ==> IsDigit(s[i])
  {
    seq(|Digits(n)|, i requires 0 <= i < |Digits(n)| => DigitChar(Digits(n)[i]))
  }

  predicate AllDigits(s: string) {
    forall i :: 0 <= i < |s| ==> IsDigit(s[i])
  }

  function ParseDigits(s: string): nat
    requires AllDigits(s)
  {
    Value(seq(|s|, i requires 0 <= i < |s| => DigitValue(s[i])))
  }

  /** The number `strconv.Atoi` reads, before its range check: an optional sign, then digits. */
  function ParseInt(s: string): Option<int> {
    var negative := s != [] && s[0] == '-';
    var body := if s != [] && (s[0] == '-' || s[0] == '+') then s[1..] else s;
    if body == [] || !AllDigits(body) then None
    else
      var v: int := ParseDigits(body);
      Some(if negative then -v else v)
  }

  /** `strconv.Atoi`: out of the range of a 64-bit `int` is an error. */
  function Atoi(s: string): Option<int> {
    match ParseInt(s)
    case None => None
    case Some(v) => if -MAX_INT - 1 <= v <= MAX_INT then Some(v) else None
  }

  lemma ParseItoa(n: nat)
    ensures ParseInt(Itoa(n)) == Some(n)
  {
    var s := Itoa(n);
    assert s[0] != '-' && s[0] != '+';
    assert seq(|s|, i requires 0 <= i < |s| => DigitValue(s[i])) == Digits(n);
    ValueOfDigits(n);
  }
}
