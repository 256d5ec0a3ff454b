/** The ISBN-13 validator `isISBN13` of app.js: strip every character that is
    not an ASCII digit, demand exactly 13 digits, and compare the last digit
    with the weighted modulus-10 check value of the first twelve (weights
    1, 3, 1, 3, ...), the EAN-13 / ISBN-13 check-digit scheme. */
module Isbn {
  import opened Wrappers

  /** What the regular expression `\D` (without the `u` flag) does not match. */
  predicate IsDigit(c: char) {
    '0' <= c <= '9'
  }

  predicate AllDigits(s: string) {
    forall i :: 0 <= i < |s| ==> IsDigit(s[i])
  }

  /** The numeric value of a digit character, as the unary `+` gives it. */
  function DigitValue(c: char): (v: nat)
    requires IsDigit(c)
    ensures v <= 9
  {
    (c as int) - ('0' as int)
  }

  /** The digit character of a value 0..9. */
  function DigitChar(v: nat): (c: char)
    requires v <= 9
    ensures IsDigit(c) && DigitValue(c) == v
  {
    ('0' as int + v) as char
  }

  /** `s.replace(/\D/g, '')`: the digits of `s`, in order. */
  function Digits(s: string): (d: string)
    ensures AllDigits(d)
    ensures |d| <= |s|
  {
    if s == [] then []
    else Digits(s[..|s| - 1]) + (if IsDigit(s[|s| - 1]) then [s[|s| - 1]] else [])
  }

  /** `split('').map(n => +n)` over a string of digits. */
  function Values(d: string): (v: seq<nat>)
    requires AllDigits(d)
    ensures |v| == |d|
    ensures forall i :: 0 <= i < |d| ==> v[i] == DigitValue(d[i])
    ensures forall i :: 0 <= i < |v| ==> v[i] <= 9 && DigitChar(v[i]) == d[i]
  {
    seq(|d|, i requires 0 <= i < |d| => DigitValue(d[i]))
  }

  /** The weight of position `i`: 1 at even positions, 3 at odd ones. */
  function Weight(i: nat): (w: nat)
    ensures w == 1 || w == 3
  {
    if i % 2 == 0 then 1 else 3
  }

  /** The `reduce` of app.js: the sum of `n[i] * Weight(i)`, folded from the left. */
  function WeightedSum(n: seq<nat>): nat {
    if n == [] then 0
    else WeightedSum(n[..|n| - 1]) + n[|n| - 1] * Weight(|n| - 1)
  }

  /** `calc`: the check value called for by a payload. */
  function CheckValue(payload: seq<nat>): (c: nat)
    ensures c <= 9
    ensures (WeightedSum(payload) + c) % 10 == 0
  {
    var sum := WeightedSum(payload);
    ModTen(sum, (10 - sum % 10) % 10);
    (10 - sum % 10) % 10
  }

  /** `s || ''`: absent input reads as the empty string. */
  function Text(s: Option<string>): (t: string)
    ensures s.Some? ==> t == s.value
    ensures s.None? ==> t == ""
  {
    s.GetOr("")
  }

  /** `isISBN13(s)`. */
  function IsISBN13(s: Option<string>): (ok: bool)
    ensures ok ==> |Digits(Text(s))| == 13
    ensures s.None? ==> !ok
  {
    var d := Digits(Text(s));
    |d| == 13 && CheckValue(Values(d[..12])) == DigitValue(d[12])
  }

  // ---------------------------------------------------------------------
  // Properties of the validator

  /** A string of digits is left as it is by the stripping. */
  lemma {:induction false} DigitsOfDigits(s: string)
    requires AllDigits(s)
    ensures Digits(s) == s
  {
    if s != [] {
      DigitsOfDigits(s[..|s| - 1]);
    }
  }

  /** Stripping is idempotent. */
  lemma DigitsIdempotent(s: string)
    ensures Digits(Digits(s)) == Digits(s)
  {
    DigitsOfDigits(Digits(s));
  }

  /** Non-digit characters do not affect the verdict. */
  lemma NonDigitsIrrelevant(s: string)
    ensures IsISBN13(Some(s)) == IsISBN13(Some(Digits(s)))
  {
    DigitsIdempotent(s);
  }

  /** The 13-digit length gate: anything else is rejected, whatever its digits. */
  lemma LengthGate(s: Option<string>)
    ensures |Digits(Text(s))| != 13 ==> !IsISBN13(s)
    ensures s.None? ==> IsISBN13(s) == IsISBN13(Some(""))
  {
  }

  /** For a string of exactly 13 digits, the verdict is the check-digit equation. */
  lemma Characterization(d: string)
    requires |d| == 13 && AllDigits(d)
    ensures IsISBN13(Some(d)) <==>
      DigitValue(d[12]) == (10 - WeightedSum(Values(d[..12])) % 10) % 10
  {
    DigitsOfDigits(d);
  }

  /** The weighted sum of a prefix followed by one more value. */
  lemma WeightedSumSnoc(n: seq<nat>, x: nat)
    ensures WeightedSum(n + [x]) == WeightedSum(n) + x * Weight(|n|)
  {
    assert (n + [x])[..|n|] == n;
  }

  /** Reference form of the scheme: a 13-digit string is valid exactly when the
      weighted sum over all 13 digits is a multiple of 10. */
  lemma ValidIffFullSumDivisible(d: string)
    requires |d| == 13 && AllDigits(d)
    ensures IsISBN13(Some(d)) <==> WeightedSum(Values(d)) % 10 == 0
  {
    DigitsOfDigits(d);
    var v := Values(d);
    assert v == Values(d[..12]) + [v[12]];
    WeightedSumSnoc(Values(d[..12]), v[12]);
    var s := WeightedSum(Values(d[..12]));
    var x := v[12];
    assert WeightedSum(v) == s + x;
    assert IsISBN13(Some(d)) <==> CheckValue(Values(d[..12])) == x;
    ModTen(s, x);
  }

  /** For a digit `x`, `x` is the check value of a sum `s` exactly when `s + x`
      is a multiple of 10. */
  lemma ModTen(s: nat, x: nat)
    requires x <= 9
    ensures (10 - s % 10) % 10 == x <==> (s + x) % 10 == 0
  {
    var r := s % 10;
    assert s == 10 * (s / 10) + r;
    assert (s + x) % 10 == (r + x) % 10;
  }

  /** Every 12-digit payload has exactly one validating 13th digit. */
  lemma UniqueCheckDigit(p: string, c: char)
    requires |p| == 12 && AllDigits(p) && IsDigit(c)
    ensures IsISBN13(Some(p + [c])) <==> c == DigitChar(CheckValue(Values(p)))
  {
    var d := p + [c];
    assert AllDigits(d);
    DigitsOfDigits(d);
    assert d[..12] == p;
  }

  /** Changing position `i` of a sequence of values shifts the weighted sum by
      the change times the weight of `i`. */
  lemma {:induction false} WeightedSumUpdate(n: seq<nat>, i: nat, x: nat)
    requires i < |n|
    ensures WeightedSum(n[i := x]) + n[i] * Weight(i) == WeightedSum(n) + x * Weight(i)
  {
    var m := n[i := x];
    var k := |n| - 1;
    assert m[..k] == if i == k then n[..k] else n[..k][i := x];
    if i < k {
      WeightedSumUpdate(n[..k], i, x);
    }
  }

  /** A change by 1..9 in one digit, weighted by 1 or 3, is never a multiple of 10. */
  lemma WeightedChangeNotMultipleOfTen(a: int, b: int, w: int)
    requires 0 <= a <= 9 && 0 <= b <= 9 && a != b && (w == 1 || w == 3)
    ensures (a * w - b * w) % 10 != 0
  {
    if w == 1 {
      assert -10 < a - b < 10;
    } else {
      assert a * w - b * w == 3 * (a - b);
      assert -30 < 3 * (a - b) < 30;
      assert 3 * (a - b) != 10 && 3 * (a - b) != 20 && 3 * (a - b) != -10 && 3 * (a - b) != -20;
    }
  }

  /** Replacing one digit of a valid ISBN-13 by a different digit always gives an
      invalid one: the weights 1 and 3 are both invertible modulo 10. */
  lemma SingleSubstitutionDetected(d: string, i: nat, c: char)
    requires |d| == 13 && AllDigits(d) && IsISBN13(Some(d))
    requires i < 13 && IsDigit(c) && c != d[i]
    ensures !IsISBN13(Some(d[i := c]))
  {
    var e := d[i := c];
    assert AllDigits(e);
    ValidIffFullSumDivisible(d);
    ValidIffFullSumDivisible(e);
    assert Values(e) == Values(d)[i := DigitValue(c)];
    WeightedSumUpdate(Values(d), i, DigitValue(c));
    var a: int, b: int, w: int := DigitValue(c), DigitValue(d[i]), Weight(i);
    WeightedChangeNotMultipleOfTen(a, b, w);
    var s, t := WeightedSum(Values(d)), WeightedSum(Values(e));
    var k: int := a * w - b * w;
    assert t == s + k;
    ShiftKeepsNonMultiple(s, t, k);
  }

  /** Adding a non-multiple of 10 to a multiple of 10 gives a non-multiple. */
  lemma ShiftKeepsNonMultiple(s: int, t: int, k: int)
    requires s % 10 == 0 && t == s + k && k % 10 != 0
    ensures t % 10 != 0
  {
    assert s == 10 * (s / 10);
    assert k == 10 * (k / 10) + k % 10;
    assert t == 10 * (s / 10 + k / 10) + k % 10;
  }

  /** The weighted sum of a prefix one element longer. */
  lemma WeightedSumPrefix(n: seq<nat>, k: nat)
    requires k < |n|
    ensures WeightedSum(n[..k + 1]) == WeightedSum(n[..k]) + n[k] * Weight(k)
  {
    assert n[..k + 1][..k] == n[..k];
  }

  /** The weighted sum of a 12-digit payload written out term by term. */
  lemma WeightedSumOfTwelve(n: seq<nat>)
    requires |n| == 12
    ensures WeightedSum(n) == n[0] + 3 * n[1] + n[2] + 3 * n[3] + n[4] + 3 * n[5]
                            + n[6] + 3 * n[7] + n[8] + 3 * n[9] + n[10] + 3 * n[11]
  {
    assert n[..0] == [];
    WeightedSumPrefix(n, 0);
    WeightedSumPrefix(n, 1);
    WeightedSumPrefix(n, 2);
    WeightedSumPrefix(n, 3);
    WeightedSumPrefix(n, 4);
    WeightedSumPrefix(n, 5);
    WeightedSumPrefix(n, 6);
    WeightedSumPrefix(n, 7);
    WeightedSumPrefix(n, 8);
    WeightedSumPrefix(n, 9);
    WeightedSumPrefix(n, 10);
    WeightedSumPrefix(n, 11);
    assert n[..12] == n;
  }

  /** The weighted sum of the payload 978013419044 is 80. */
  lemma ExamplePayloadSum()
    ensures AllDigits("978013419044") && WeightedSum(Values("978013419044")) == 80
  {
    var v := Values("978013419044");
    assert v[0] == 9 && v[1] == 7 && v[2] == 8 && v[3] == 0 && v[4] == 1 && v[5] == 3;
    assert v[6] == 4 && v[7] == 1 && v[8] == 9 && v[9] == 0 && v[10] == 4 && v[11] == 4;
    WeightedSumOfTwelve(v);
  }

  /** 9780134190440 is a valid ISBN-13. */
  lemma ExampleValid()
    ensures IsISBN13(Some("9780134190440"))
  {
    assert "9780134190440"[..12] == "978013419044";
    ExamplePayloadSum();
    Characterization("9780134190440");
  }

  /** 9780134190441, the same with its check digit corrupted, is not. */
  lemma ExampleCorrupted()
    ensures !IsISBN13(Some("9780134190441"))
  {
    assert "9780134190441"[..12] == "978013419044";
    ExamplePayloadSum();
    Characterization("9780134190441");
  }

  /** Stripping a single character keeps it exactly when it is a digit. */
  lemma DigitsSingleton(c: char)
    ensures Digits([c]) == (if IsDigit(c) then [c] else [])
  {
    assert [c][..0] == [];
  }

  /** Inserting a non-digit anywhere (a hyphen, a space, a letter) leaves the
      verdict unchanged. */
  lemma NonDigitInsertion(a: string, c: char, b: string)
    requires !IsDigit(c)
    ensures IsISBN13(Some(a + [c] + b)) == IsISBN13(Some(a + b))
  {
    DigitsAppend(a + [c], b);
    DigitsAppend(a, [c]);
    DigitsAppend(a, b);
    DigitsSingleton(c);
    assert Digits(a + [c]) == Digits(a);
    assert Digits(a + [c] + b) == Digits(a + b);
  }

  /** Stripping distributes over concatenation. */
  lemma {:induction false} DigitsAppend(a: string, b: string)
    ensures Digits(a + b) == Digits(a) + Digits(b)
  {
    if b == [] {
      assert a + b == a;
    } else {
      var n := |b| - 1;
      assert (a + b)[..|a + b| - 1] == a + b[..n];
      assert (a + b)[|a + b| - 1] == b[n];
      DigitsAppend(a, b[..n]);
    }
  }

  /** A 12-digit or a 14-digit string never validates. */
  lemma ExampleWrongLength()
    ensures !IsISBN13(Some("978013419044"))
    ensures !IsISBN13(Some("97801341904400"))
  {
    DigitsOfDigits("978013419044");
    DigitsOfDigits("97801341904400");
  }

  // ---------------------------------------------------------------------
  // The same validator step by step: the `replace` as a filtering loop and
  // the `reduce` as an accumulating loop.

  /** `replace(/\D/g, '')` as a loop that keeps the digits. */
  method StripNonDigits(text: string) returns (d: string)
    ensures d == Digits(text)
  {
    d := "";
    var i := 0;
    while i < |text|
      invariant 0 <= i <= |text|
      invariant d == Digits(text[..i])
    {
      assert text[..i + 1][..i] == text[..i];
      if IsDigit(text[i]) {
        d := d + [text[i]];
      }
      i := i + 1;
    }
    assert text[..|text|] == text;
  }

  /** The `reduce` as a loop that accumulates `n * (i % 2 === 0 ? 1 : 3)`. */
  method SumWeighted(nums: seq<nat>) returns (sum: nat)
    ensures sum == WeightedSum(nums)
  {
    sum := 0;
    var k := 0;
    while k < |nums|
      invariant 0 <= k <= |nums|
      invariant sum == WeightedSum(nums[..k])
    {
      assert nums[..k + 1][..k] == nums[..k];
      sum := sum + nums[k] * (if k % 2 == 0 then 1 else 3);
      k := k + 1;
    }
    assert nums[..|nums|] == nums;
  }

  /** `isISBN13` written with the two loops. */
  method CheckIsbn13(s: Option<string>) returns (ok: bool)
    ensures ok == IsISBN13(s)
  {
    var d := StripNonDigits(if s.Some? then s.value else "");
    if |d| != 13 {
      return false;
    }
    var sum := SumWeighted(Values(d[..12]));
    var expected := (10 - sum % 10) % 10;
    ok := expected == DigitValue(d[12]);
  }
}
