/** The check digits of card numbers (ISO/IEC 7812-1, Annex B). */
module Luhns {

  predicate IsDigit(c: char) {
    '0' <= c <= '9'
  }

  function Value(c: char): nat
    requires IsDigit(c)
  {
    (c - '0') as nat
  }

  function Digits(s: string): seq<nat> {
    if s == "" then []
    else (if IsDigit(s[0]) then [Value(s[0])] else []) + Digits(s[1..])
  }

  /** What a digit counts for at an index from the right. */
  function Weight(index: nat, digit: nat): nat {
    if index % 2 == 1 then
      var doubled := digit * 2;
      if doubled > 9 then doubled - 9 else doubled
    else digit
  }

  /** The sum over the digits, the last of which is at `index`. */
  function WeightedSum(digits: seq<nat>, index: nat): nat {
    if digits == [] then 0
    else WeightedSum(digits[..|digits| - 1], index + 1) + Weight(index, digits[|digits| - 1])
  }

  predicate Checks(digits: seq<nat>) {
    WeightedSum(digits, 0) % 10 == 0
  }

  predicate Luhn(value: string) {
    13 <= |Digits(value)| <= 19 && Checks(Digits(value))
  }

  ghost predicate AreDigits(digits: seq<nat>) {
    forall i :: 0 <= i < |digits| ==> digits[i] <= 9
  }

  /** The sum from left to right: every second digit, counted from the last but one back, is doubled, and the digits of
      what that makes are added up. */
  function LeftSum(digits: seq<nat>): nat
    requires forall i :: 0 <= i < |digits| ==> digits[i] <= 9
  {
    if digits == [] then 0
    else (if |digits| % 2 == 0 then [0, 2, 4, 6, 8, 1, 3, 5, 7, 9][digits[0]] else digits[0]) + LeftSum(digits[1..])
  }

  lemma {:induction false} SumSplitsOff(digits: seq<nat>, index: nat)
    requires digits != []
    ensures WeightedSum(digits, index) == Weight(index + |digits| - 1, digits[0]) + WeightedSum(digits[1..], index)
  {
    var n := |digits| - 1;
    if n > 0 {
      SumSplitsOff(digits[..n], index + 1);
      assert digits[1..][..n - 1] == digits[..n][1..];
    } else {
      assert digits[1..] == [] && digits[..n] == [];
    }
  }

  lemma WeightIs(index: nat, digit: nat)
    requires digit <= 9
    ensures Weight(index, digit) == if index % 2 == 1 then [0, 2, 4, 6, 8, 1, 3, 5, 7, 9][digit] else digit
  {}

  lemma {:induction false} SumIsLeftSum(digits: seq<nat>)
    requires AreDigits(digits)
    ensures WeightedSum(digits, 0) == LeftSum(digits)
  {
    hide Weight, WeightedSum;
    if digits == [] {
      NothingToSum();
    } else {
      WeightIs(|digits| - 1, digits[0]);
      SumSplitsOff(digits, 0);
      SumIsLeftSum(digits[1..]);
    }
  }

  lemma NothingToSum()
    ensures WeightedSum([], 0) == 0
  {}

  /** A text is a card number iff it has 13 to 19 digits, the sum of which is a multiple of ten. */
  lemma LuhnIff(value: string)
    ensures AreDigits(Digits(value))
    ensures Luhn(value) <==> 12 < |Digits(value)| < 20 && exists n :: LeftSum(Digits(value)) == 10 * n
  {
    DigitsAreDigits(value);
    SumIsLeftSum(Digits(value));
    var sum := LeftSum(Digits(value));
    assert sum % 10 == 0 ==> sum == 10 * (sum / 10);
  }

  /** The digits of a text are its characters from `0` to `9`, in order. */
  lemma {:induction false} DigitsOfText(s: string, k: nat)
    requires k < |s|
    ensures Digits(s) == Digits(s[..k]) + (if s[k] in "0123456789" then [s[k] as int - 48] else []) + Digits(s[k + 1..])
  {
    assert s == s[..k] + ([s[k]] + s[k + 1..]);
    DigitsOfConcat(s[..k], [s[k]] + s[k + 1..]);
    assert ([s[k]] + s[k + 1..])[1..] == s[k + 1..];
    assert IsDigit(s[k]) <==> s[k] in "0123456789";
  }

  // ---------------------------------------------------------------- digit sequences of any length

  /** Doubling permutes the digits. */
  lemma WeightIsInjective(index: nat, a: nat, b: nat)
    requires a <= 9 && b <= 9
    ensures (Weight(index, b) - Weight(index, a)) % 10 == 0 <==> a == b
  {}

  lemma MovedBy(sum: int, moved: int, difference: int)
    requires moved == sum + difference && sum % 10 == 0
    ensures moved % 10 == 0 <==> difference % 10 == 0
  {}

  lemma {:induction false} SumAfterChange(digits: seq<nat>, index: nat, k: nat, d: nat)
    requires k < |digits|
    ensures WeightedSum(digits[k := d], index) + Weight(index + |digits| - 1 - k, digits[k]) ==
            WeightedSum(digits, index) + Weight(index + |digits| - 1 - k, d)
  {
    var n := |digits| - 1;
    if k == n {
      assert digits[k := d][..n] == digits[..n];
    } else {
      SumAfterChange(digits[..n], index + 1, k, d);
      assert digits[k := d][..n] == digits[..n][k := d];
    }
  }

  /** A changed digit goes unnoticed only if it is not changed. */
  lemma SingleChangeIsNoticed(digits: seq<nat>, k: nat, d: nat)
    requires AreDigits(digits) && k < |digits| && d <= 9 && Checks(digits)
    ensures Checks(digits[k := d]) <==> d == digits[k]
  {
    var index := |digits| - 1 - k;
    SumAfterChange(digits, 0, k, d);
    WeightIsInjective(index, digits[k], d);
    MovedBy(WeightedSum(digits, 0), WeightedSum(digits[k := d], 0), Weight(index, d) - Weight(index, digits[k]));
  }

  function Swapped(digits: seq<nat>, k: nat): seq<nat>
    requires k + 1 < |digits|
  {
    digits[k := digits[k + 1]][k + 1 := digits[k]]
  }

  lemma SumAfterSwap(digits: seq<nat>, last: nat, k: nat, index: nat, a: nat, b: nat)
    requires k + 1 < |digits| && index == last + |digits| - 1 - k && a == digits[k] && b == digits[k + 1]
    ensures WeightedSum(Swapped(digits, k), last) == WeightedSum(digits, last) +
              (Weight(index, b) + Weight(index - 1, a) - Weight(index, a) - Weight(index - 1, b))
  {
    var once := digits[k := b];
    SumAfterChange(digits, last, k, b);
    SumAfterChange(once, last, k + 1, a);
    assert WeightedSum(once, last) + Weight(index, a) == WeightedSum(digits, last) + Weight(index, b);
    assert WeightedSum(once[k + 1 := a], last) + Weight(index - 1, b) == WeightedSum(once, last) + Weight(index - 1, a);
  }

  /** Two neighbours swapped go unnoticed only if they are equal, or are 0 and 9. */
  lemma SwapIsNoticed(digits: seq<nat>, k: nat)
    requires AreDigits(digits) && k + 1 < |digits| && Checks(digits)
    ensures Checks(Swapped(digits, k)) <==>
            || digits[k] == digits[k + 1]
            || (digits[k] == 0 && digits[k + 1] == 9) || (digits[k] == 9 && digits[k + 1] == 0)
  {
    var index, a, b := |digits| - 1 - k, digits[k], digits[k + 1];
    SumAfterSwap(digits, 0, k, index, a, b);
    SwapOfWeights(index, a, b);
    MovedBy(WeightedSum(digits, 0), WeightedSum(Swapped(digits, k), 0),
            Weight(index, b) + Weight(index - 1, a) - Weight(index, a) - Weight(index - 1, b));
  }

  lemma SwapOfWeights(index: nat, a: nat, b: nat)
    requires index >= 1 && a <= 9 && b <= 9
    ensures (Weight(index, b) + Weight(index - 1, a) - Weight(index, a) - Weight(index - 1, b)) % 10 == 0 <==>
            a == b || (a == 0 && b == 9) || (a == 9 && b == 0)
  {}

  /** Every number has exactly one check digit. */
  lemma CheckDigitIsUnique(digits: seq<nat>, d: nat)
    requires d <= 9
    ensures Checks(digits + [d]) <==> d == (10 - WeightedSum(digits, 1) % 10) % 10
  {
    assert (digits + [d])[..|digits|] == digits;
  }

  // ---------------------------------------------------------------- card numbers as they are written

  lemma {:induction false} DigitsAreDigits(s: string)
    ensures AreDigits(Digits(s))
  {
    if s != "" {
      DigitsAreDigits(s[1..]);
    }
  }

  lemma {:induction false} DigitsOfConcat(s: string, t: string)
    ensures Digits(s + t) == Digits(s) + Digits(t)
  {
    if s == "" {
      assert s + t == t;
      assert [] + Digits(t) == Digits(t);
    } else {
      var first, rest := if IsDigit(s[0]) then [Value(s[0])] else [], Digits(s[1..]);
      DigitsOfConcat(s[1..], t);
      assert (s + t)[1..] == s[1..] + t;
      assert first + (rest + Digits(t)) == first + rest + Digits(t);
    }
  }

  lemma DigitsAround(before: string, c: char, after: string)
    requires IsDigit(c)
    ensures Digits(before + [c] + after) == Digits(before) + [Value(c)] + Digits(after)
  {
    DigitsOfConcat(before + [c], after);
    DigitsOfConcat(before, [c]);
  }

  /** An accepted number with one digit replaced by another one is not accepted. */
  lemma AnyWrongDigitIsRejected(before: string, c: char, after: string, wrong: char)
    requires IsDigit(c) && IsDigit(wrong) && Luhn(before + [c] + after)
    ensures Luhn(before + [wrong] + after) <==> wrong == c
  {
    DigitsAround(before, c, after);
    DigitsAround(before, wrong, after);
    DigitsAreDigits(before + [c] + after);
    var k := |Digits(before)|;
    var digits := Digits(before + [c] + after);
    assert Digits(before + [wrong] + after) == digits[k := Value(wrong)];
    SingleChangeIsNoticed(digits, k, Value(wrong));
  }

  /** An accepted number with two neighbouring digits swapped, whatever separators stand between them, is accepted
      only if they are the same or are 0 and 9. */
  lemma SwappedNeighboursAreRejected(before: string, a: char, between: string, b: char, after: string)
    requires IsDigit(a) && IsDigit(b) && (forall c :: c in between ==> !IsDigit(c))
    requires Luhn(before + [a] + between + [b] + after)
    ensures Luhn(before + [b] + between + [a] + after) <==>
            a == b || (a == '0' && b == '9') || (a == '9' && b == '0')
  {
    NoDigits(between);
    DigitsOfTwo(before, a, between, b, after);
    DigitsOfTwo(before, b, between, a, after);
    var k := |Digits(before)|;
    var digits := Digits(before + [a] + between + [b] + after);
    DigitsAreDigits(before + [a] + between + [b] + after);
    assert Digits(before + [b] + between + [a] + after) == Swapped(digits, k);
    SwapIsNoticed(digits, k);
  }

  lemma {:induction false} NoDigits(s: string)
    requires forall c :: c in s ==> !IsDigit(c)
    ensures Digits(s) == []
  {
    if s != "" {
      assert s[0] in s;
      NoDigits(s[1..]);
    }
  }

  lemma DigitsOfTwo(before: string, a: char, between: string, b: char, after: string)
    requires IsDigit(a) && IsDigit(b) && Digits(between) == []
    ensures Digits(before + [a] + between + [b] + after) == Digits(before) + [Value(a), Value(b)] + Digits(after)
  {
    DigitsAround(before + [a] + between, b, after);
    DigitsAround(before, a, between);
  }
}
