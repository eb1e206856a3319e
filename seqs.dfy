/** Sequence and string helpers shared by the model: Ruby's `Array#reverse`,
    `Array#join` and `Integer#to_s`. */
module Seqs {

  /** Where the parts of a three-part concatenation sit in it. */
  lemma Concat3<T>(a: seq<T>, b: seq<T>, c: seq<T>)
    ensures var s := a + b + c;
      |s| == |a| + |b| + |c| && s[..|a|] == a && s[|a|..|a| + |b|] == b && s[|a| + |b|..] == c
  {
    var s := a + b + c;
    assert s[..|a|] == a;
    assert s[|a|..|a| + |b|] == b;
    assert s[|a| + |b|..] == c;
  }

  /** `Array#reverse` */
  function Reverse<T>(s: seq<T>): (r: seq<T>)
    ensures |r| == |s|
    ensures forall i :: 0 <= i < |s| ==> r[i] == s[|s| - 1 - i]
  {
    if s == [] then [] else Reverse(s[1..]) + [s[0]]
  }

  lemma ReverseSnoc<T>(s: seq<T>, x: T)
    ensures Reverse(s + [x]) == [x] + Reverse(s)
  {
    assert |Reverse(s + [x])| == |[x] + Reverse(s)|;
  }

  lemma ReverseReverse<T>(s: seq<T>)
    ensures Reverse(Reverse(s)) == s
  {
    assert |Reverse(Reverse(s))| == |s|;
  }

  /** `Array#join(sep)` over strings: nothing between a single part, "" for none. */
  function Join(parts: seq<string>, sep: string): string
  {
    if parts == [] then ""
    else if |parts| == 1 then parts[0]
    else parts[0] + sep + Join(parts[1..], sep)
  }

  lemma JoinCons(x: string, rest: seq<string>, sep: string)
    ensures Join([x] + rest, sep) == if rest == [] then x else x + sep + Join(rest, sep)
  {
    assert ([x] + rest)[1..] == rest;
  }

  function Digit(d: nat): (c: char)
    requires d < 10
    ensures '0' <= c <= '9' && c as int - '0' as int == d
  {
    ('0' as int + d) as char
  }

  /** Every character of `s` is a decimal digit. */
  predicate AllDigits(s: string)
  {
    forall i :: 0 <= i < |s| ==> '0' <= s[i] <= '9'
  }

  /** The number a string of decimal digits denotes, most significant first. */
  function DigitsValue(s: string): nat
    requires AllDigits(s)
  {
    if s == [] then 0 else 10 * DigitsValue(s[..|s| - 1]) + (s[|s| - 1] as int - '0' as int)
  }

  /** The decimal digits of a natural number: they denote the number, and there
      is no leading zero. */
  function DecimalNat(n: nat): (s: string)
    ensures |s| >= 1 && AllDigits(s)
    ensures DigitsValue(s) == n
    ensures s[0] == '0' ==> n == 0
  {
    if n < 10 then [Digit(n)]
    else
      var s := DecimalNat(n / 10) + [Digit(n % 10)];
      assert s[..|s| - 1] == DecimalNat(n / 10);
      s
  }

  /** An optional minus sign followed by at least one decimal digit. */
  predicate IsInteger(s: string)
  {
    |s| >= 1 && if s[0] == '-' then |s| >= 2 && AllDigits(s[1..]) else AllDigits(s)
  }

  /** The integer such a string denotes. */
  function IntegerValue(s: string): int
    requires IsInteger(s)
  {
    if s[0] == '-' then -(DigitsValue(s[1..]) as int) else DigitsValue(s)
  }

  /** `Integer#to_s`: a minus sign exactly for a negative number, followed by
      the digits of its magnitude with no leading zero. */
  function Decimal(i: int): (s: string)
    ensures |s| >= 1
    ensures s[0] == '-' <==> i < 0
    ensures i >= 0 ==> AllDigits(s) && DigitsValue(s) == i && (s[0] == '0' ==> i == 0)
    ensures i < 0 ==> |s| >= 2 && AllDigits(s[1..]) && DigitsValue(s[1..]) == -i && s[1] != '0'
    ensures IsInteger(s) && IntegerValue(s) == i
  {
    if i >= 0 then DecimalNat(i)
    else
      var s := "-" + DecimalNat(-i);
      assert s[1..] == DecimalNat(-i);
      s
  }
}
