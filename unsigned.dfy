/**
 * Rust's `FromStr` for the unsigned integer types `u16` and `u128`, which the
 * accessors use to read `CF_INSTANCE_INDEX`, `CF_INSTANCE_PORT`, `PORT` and the
 * size part of `MEMORY_LIMIT`.
 *
 * The grammar accepted is: a non-empty string, one optional leading `+`, then
 * one or more ASCII decimal digits (leading zeros allowed), whose value fits the
 * width. A `-` is never accepted for an unsigned type.
 */
module UnsignedInt {
  import opened Wrappers

  const U16_LIMIT: nat := 0x1_0000
  const U128_LIMIT: nat := 0x1_0000_0000_0000_0000_0000_0000_0000_0000

  type U16 = n: nat | n < U16_LIMIT
  type U128 = n: nat | n < U128_LIMIT

  predicate IsDigit(c: char) {
    '0' <= c <= '9'
  }

  function DigitValue(c: char): (d: nat)
    requires IsDigit(c)
    ensures d < 10
  {
    c as int - '0' as int
  }

  function DigitChar(d: nat): (c: char)
    requires d < 10
    ensures IsDigit(c) && DigitValue(c) == d
  {
    ('0' as int + d) as char
  }

  predicate AllDigits(s: string) {
    forall i :: 0 <= i < |s| ==> IsDigit(s[i])
  }

  function Pow10(k: nat): (p: nat)
    ensures p >= 1
  {
    if k == 0 then 1 else 10 * Pow10(k - 1)
  }

  /** The positional value of a digit string, most significant digit first. */
  ghost function Value(s: string): nat
    requires AllDigits(s)
  {
    if s == [] then 0 else Value(s[..|s| - 1]) * 10 + DigitValue(s[|s| - 1])
  }

  /** What is left of a literal once its one optional `+` sign is removed. */
  ghost function Magnitude(s: string): string {
    if |s| > 0 && s[0] == '+' then s[1..] else s
  }

  /** The unsigned-integer grammar, regardless of width. */
  ghost predicate IsLiteral(s: string) {
    |Magnitude(s)| > 0 && AllDigits(Magnitude(s))
  }

  /** The value `acc` reaches once the digits of `s` are shifted in after it. */
  ghost function Shifted(acc: nat, s: string): nat
    requires AllDigits(s)
  {
    acc * Pow10(|s|) + Value(s)
  }

  lemma {:induction false} ValueCons(c: char, s: string)
    requires IsDigit(c) && AllDigits(s)
    ensures AllDigits([c] + s)
    ensures Value([c] + s) == DigitValue(c) * Pow10(|s|) + Value(s)
    decreases |s|
  {
    var t := [c] + s;
    assert AllDigits(t) by {
      forall i | 0 <= i < |t| ensures IsDigit(t[i]) {
        if i > 0 { assert t[i] == s[i - 1]; }
      }
    }
    if s != [] {
      var init := s[..|s| - 1];
      assert t[..|t| - 1] == [c] + init;
      assert t[|t| - 1] == s[|s| - 1];
      ValueCons(c, init);
      calc {
        Value(t);
        Value([c] + init) * 10 + DigitValue(s[|s| - 1]);
        (DigitValue(c) * Pow10(|init|) + Value(init)) * 10 + DigitValue(s[|s| - 1]);
        DigitValue(c) * (Pow10(|init|) * 10) + (Value(init) * 10 + DigitValue(s[|s| - 1]));
        DigitValue(c) * Pow10(|s|) + Value(s);
      }
    } else {
      assert t[..|t| - 1] == [];
    }
  }

  lemma ShiftedStep(acc: nat, s: string)
    requires |s| > 0 && IsDigit(s[0])
    ensures AllDigits(s) <==> AllDigits(s[1..])
    ensures AllDigits(s) ==> Shifted(acc, s) == Shifted(acc * 10 + DigitValue(s[0]), s[1..])
  {
    var rest := s[1..];
    assert s == [s[0]] + rest;
    if AllDigits(rest) {
      ValueCons(s[0], rest);
      var d := DigitValue(s[0]);
      var p := Pow10(|rest|);
      calc {
        Shifted(acc, s);
        acc * (10 * p) + (d * p + Value(rest));
        (acc * 10 + d) * p + Value(rest);
      }
    }
    if AllDigits(s) {
      forall i | 0 <= i < |rest| ensures IsDigit(rest[i]) {
        assert rest[i] == s[i + 1];
      }
    }
  }

  lemma ShiftedAtLeast(acc: nat, s: string)
    requires AllDigits(s)
    ensures Shifted(acc, s) >= acc
  {
    var p := Pow10(|s|);
    assert acc * p >= acc * 1;
  }

  /**
   * Reads the digits left to right, multiplying by ten and adding each digit
   * in turn and failing as soon as the running value no longer fits below
   * `limit`, as Rust's radix-10 parsing does with checked arithmetic.
   */
  function Accumulate(digits: string, acc: nat, limit: nat): (r: Option<nat>)
    requires acc < limit
    ensures r.Some? <==> AllDigits(digits) && Shifted(acc, digits) < limit
    ensures r.Some? ==> r.value == Shifted(acc, digits)
    decreases |digits|
  {
    if digits == [] then
      Some(acc)
    else if !IsDigit(digits[0]) then
      None
    else
      var next := acc * 10 + DigitValue(digits[0]);
      ShiftedStep(acc, digits);
      if next >= limit then
        (if AllDigits(digits[1..]) then ShiftedAtLeast(next, digits[1..]); None else None)
      else
        Accumulate(digits[1..], next, limit)
  }

  /** `str::parse` for an unsigned type whose values are those below `limit`. */
  function Parse(s: string, limit: nat): (r: Option<nat>)
    requires limit > 0
    ensures r.Some? <==> IsLiteral(s) && Value(Magnitude(s)) < limit
    ensures r.Some? ==> r.value == Value(Magnitude(s))
  {
    var digits := if |s| > 0 && s[0] == '+' then s[1..] else s;
    if digits == [] then None
    else
      assert AllDigits(digits) ==> Shifted(0, digits) == Value(digits);
      Accumulate(digits, 0, limit)
  }

  /** The canonical decimal rendering of `n`: no sign, no leading zeros. */
  function ToDecimal(n: nat): (s: string)
    ensures |s| > 0 && AllDigits(s) && Value(s) == n
    ensures s[0] != '+'
  {
    if n < 10 then
      var s := [DigitChar(n)];
      assert s[..0] == [];
      s
    else
      var init := ToDecimal(n / 10);
      var s := init + [DigitChar(n % 10)];
      assert s[..|s| - 1] == init;
      s
  }

  /** Parsing the decimal rendering of `n` gives `n` back exactly when it fits. */
  lemma ParseDecimal(n: nat, limit: nat)
    requires limit > 0
    ensures Parse(ToDecimal(n), limit) == if n < limit then Some(n) else None
  {
    assert Magnitude(ToDecimal(n)) == ToDecimal(n);
  }

  /** One leading `+` is accepted and does not change the value. */
  lemma ParsePlusDecimal(n: nat, limit: nat)
    requires limit > 0
    ensures Parse("+" + ToDecimal(n), limit) == if n < limit then Some(n) else None
  {
    assert Magnitude("+" + ToDecimal(n)) == ToDecimal(n);
  }

  /** A leading `-` is rejected whatever follows it. */
  lemma ParseRejectsMinus(s: string, limit: nat)
    requires limit > 0
    ensures Parse("-" + s, limit) == None
  {
    assert Magnitude("-" + s)[0] == '-';
  }
}
