/**
 * The arithmetic behind the party math trick, shared by both versions of the demo route
 * (`the-party-math-trick-demo.tsx` and `the-party-math-trick-demo/index.tsx`).
 *
 * A player writes a number, scrambles its digits, subtracts the smaller from the larger,
 * hides one digit of the difference and reveals the rest.  The guesser adds the revealed
 * digits and counts up in nines until it passes that sum; the gap is the hidden digit.
 * Numbers are mathematical integers: the page's JavaScript numbers lose precision only
 * far beyond any number a player types.
 */
module TrickArith {

  import opened Wrappers

  /** The `remainingDigits` form field after `JSON.parse`: text that does not parse, `null`, or a list of numbers. */
  datatype FormField = Malformed | Null | Numbers(values: seq<int>)

  predicate IsDigit(x: int) { 0 <= x <= 9 }

  predicate AllDigits(s: seq<int>) { forall i :: 0 <= i < |s| ==> IsDigit(s[i]) }

  // ---------------------------------------------------------------------------------------
  // Input fields and the difference
  // ---------------------------------------------------------------------------------------

  /** `parseInt(text) || 0`: a text that does not parse (`NaN`) and a text that parses to 0 both give 0. */
  function ParseIntOrZero(parsed: Option<int>): (n: int)
    ensures parsed.None? ==> n == 0
    ensures parsed.Some? ==> n == parsed.value
  {
    match parsed
    case None => 0
    case Some(v) => if v != 0 then v else 0
  }

  /** `subtractionResult`: the larger of the two numbers minus the smaller. */
  function AbsDiff(initial: int, scrambled: int): (d: nat)
    ensures d == initial - scrambled || d == scrambled - initial
    ensures initial + d == scrambled || scrambled + d == initial
  {
    if initial > scrambled then initial - scrambled else scrambled - initial
  }

  // ---------------------------------------------------------------------------------------
  // Decimal digits
  // ---------------------------------------------------------------------------------------

  /** `Array.from(String(n), Number)`: the decimal digits of n, most significant first, and `[0]` for 0. */
  function Digits(n: nat): (ds: seq<int>)
    ensures |ds| >= 1 && AllDigits(ds)
    ensures ds[0] != 0 || n == 0
    ensures ds[0] != 0 || |ds| == 1
    decreases n
  {
    if n < 10 then [n] else Digits(n / 10) + [n % 10]
  }

  /** The number a digit sequence spells, most significant first: the inverse of Digits. */
  function Value(ds: seq<int>): int
  {
    if ds == [] then 0 else Value(ds[..|ds| - 1]) * 10 + ds[|ds| - 1]
  }

  lemma {:induction false} ValueOfDigits(n: nat)
    ensures Value(Digits(n)) == n
    decreases n
  {
    if n >= 10 {
      var ds := Digits(n);
      assert ds[..|ds| - 1] == Digits(n / 10);
      ValueOfDigits(n / 10);
    }
  }

  lemma {:induction false} ValueIsPositive(ds: seq<int>)
    requires AllDigits(ds) && |ds| >= 1 && ds[0] != 0
    ensures Value(ds) >= 1
  {
    if |ds| > 1 {
      var prefix := ds[..|ds| - 1];
      assert prefix[0] == ds[0];
      ValueIsPositive(prefix);
    }
  }

  /** A digit sequence without leading zeros is the expansion of the number it spells. */
  lemma {:induction false} DigitsOfValue(ds: seq<int>)
    requires AllDigits(ds) && |ds| >= 1 && (ds[0] != 0 || |ds| == 1)
    ensures Value(ds) >= 0 && Digits(Value(ds)) == ds
  {
    if |ds| > 1 {
      var prefix := ds[..|ds| - 1];
      assert prefix[0] == ds[0];
      ValueIsPositive(prefix);
      DigitsOfValue(prefix);
      var v := Value(ds);
      assert v / 10 == Value(prefix) && v % 10 == ds[|ds| - 1];
      assert ds == prefix + [ds[|ds| - 1]];
    }
  }

  // ---------------------------------------------------------------------------------------
  // Sums
  // ---------------------------------------------------------------------------------------

  /** Left-to-right total, as `reduce((acc, curr) => acc + curr, 0)` and the counting loop compute it. */
  function Sum(s: seq<int>): int
  {
    if s == [] then 0 else Sum(s[..|s| - 1]) + s[|s| - 1]
  }

  /** A list of digits adds up to between 0 and 9 per element. */
  lemma {:induction false} SumOfDigitsBounds(s: seq<int>)
    requires AllDigits(s)
    ensures 0 <= Sum(s) <= 9 * |s|
  {
    if s != [] {
      SumOfDigitsBounds(s[..|s| - 1]);
    }
  }

  lemma {:induction false} SumAppend(a: seq<int>, b: seq<int>)
    ensures Sum(a + b) == Sum(a) + Sum(b)
    decreases |b|
  {
    if b != [] {
      assert (a + b)[..|a + b| - 1] == a + b[..|b| - 1];
      SumAppend(a, b[..|b| - 1]);
    } else {
      assert a + b == a;
    }
  }

  /** The total of a list with one element singled out. */
  lemma SumAround(a: seq<int>, x: int, b: seq<int>)
    ensures Sum(a + [x] + b) == Sum(a + b) + x
  {
    SumAppend(a + [x], b);
    SumAppend(a, b);
    assert (a + [x])[..|a|] == a;
  }

  /** Taking element i out of a sequence takes its value out of the sum. */
  lemma SumWithout(s: seq<int>, i: int)
    requires 0 <= i < |s|
    ensures Sum(s[..i] + s[i + 1..]) == Sum(s) - s[i]
  {
    SplitAt(s, i);
    SumAround(s[..i], s[i], s[i + 1..]);
  }

  lemma SplitAt(s: seq<int>, i: int)
    requires 0 <= i < |s|
    ensures s == s[..i] + [s[i]] + s[i + 1..]
  {
  }

  /** The sum does not depend on the order of the elements. */
  lemma {:induction false} SumOfPermutation(s: seq<int>, t: seq<int>)
    requires multiset(s) == multiset(t)
    ensures Sum(s) == Sum(t)
    decreases |s|
  {
    if s == [] {
      assert |t| == |multiset(t)| == 0;
    } else {
      var x := s[|s| - 1];
      assert x in multiset(s);
      var i :| 0 <= i < |t| && t[i] == x;
      var rest := t[..i] + t[i + 1..];
      assert t == t[..i] + [x] + t[i + 1..];
      assert s == s[..|s| - 1] + [x];
      assert multiset(rest) == multiset(t) - multiset{x};
      assert multiset(s[..|s| - 1]) == multiset(s) - multiset{x};
      SumOfPermutation(s[..|s| - 1], rest);
      SumWithout(t, i);
    }
  }

  // ---------------------------------------------------------------------------------------
  // Casting out nines
  // ---------------------------------------------------------------------------------------

  lemma MultiplesOfNine(x: int, y: int)
    requires x % 9 == 0 && y % 9 == 0
    ensures (x + y) % 9 == 0 && (x - y) % 9 == 0 && (9 * x) % 9 == 0
  {
    var a, b := x / 9, y / 9;
    assert x == 9 * a && y == 9 * b;
    assert x + y == 9 * (a + b);
    assert x - y == 9 * (a - b);
    assert 9 * x == 9 * (9 * a);
  }

  /** A number spelled by digits differs from the sum of those digits by a multiple of 9. */
  lemma {:induction false} ValueMinusSum(ds: seq<int>)
    ensures (Value(ds) - Sum(ds)) % 9 == 0
  {
    if ds != [] {
      var prefix := ds[..|ds| - 1];
      ValueMinusSum(prefix);
      var v := Value(prefix);
      assert (9 * v) % 9 == 0 by {
        assert 9 * v == 9 * v + 0;
      }
      MultiplesOfNine(9 * v, v - Sum(prefix));
      assert Value(ds) - Sum(ds) == 9 * v + (v - Sum(prefix));
    }
  }

  /** n and the sum of its decimal digits differ by a multiple of 9. */
  lemma DigitSumCongruent(n: nat)
    ensures (n - Sum(Digits(n))) % 9 == 0
  {
    ValueOfDigits(n);
    ValueMinusSum(Digits(n));
  }

  /**
   * Scrambling the digits of a number changes it by a multiple of 9.  The digit
   * sequences may carry leading zeros: 7034 scrambled as 0437 is the number 437.
   */
  lemma PermutationDifference(ds: seq<int>, es: seq<int>)
    requires multiset(ds) == multiset(es)
    ensures (Value(ds) - Value(es)) % 9 == 0 && AbsDiff(Value(ds), Value(es)) % 9 == 0
  {
    var x, y := Value(ds) - Sum(ds), Value(es) - Sum(es);
    assert x % 9 == 0 && y % 9 == 0 by {
      ValueMinusSum(ds);
      ValueMinusSum(es);
    }
    assert Value(ds) - Value(es) == x - y by {
      SumOfPermutation(ds, es);
    }
    MultiplesOfNine(x, y);
    MultiplesOfNine(0, x - y);
  }

  /** The same fact for two numbers whose decimal expansions are rearrangements of each other. */
  lemma ScrambledDifference(n: nat, m: nat)
    requires multiset(Digits(n)) == multiset(Digits(m))
    ensures AbsDiff(n, m) % 9 == 0
  {
    ValueOfDigits(n);
    ValueOfDigits(m);
    PermutationDifference(Digits(n), Digits(m));
  }

  // ---------------------------------------------------------------------------------------
  // The guesser
  // ---------------------------------------------------------------------------------------

  /**
   * Where `multiple` stops when it counts up from 0 in steps of 9 while it is at most `sum`:
   * the least multiple of 9 above a non-negative sum, and 0 for a negative one (the loop never runs).
   */
  function FirstMultipleOfNineAbove(sum: int): (m: int)
    ensures m % 9 == 0 && m >= 0
    ensures sum >= 0 ==> sum < m <= sum + 9
    ensures sum < 0 ==> m == 0
  {
    if sum < 0 then 0 else (sum / 9 + 1) * 9
  }

  /** Only one multiple of 9 lies in any nine consecutive integers. */
  lemma FirstMultipleUnique(sum: int, m: int)
    requires sum >= 0 && m % 9 == 0 && sum < m <= sum + 9
    ensures m == FirstMultipleOfNineAbove(sum)
  {
    var k, q, r := m / 9, sum / 9, sum % 9;
    assert m == 9 * k && sum == 9 * q + r && 0 <= r < 9;
    assert k == q + 1;
  }

  /** The guesser's answer, `multiple - sum`, for a given sum of revealed digits. */
  function Guess(sum: int): (answer: int)
    ensures sum >= 0 ==> 1 <= answer <= 9
    ensures sum < 0 ==> answer == -sum
    ensures (sum + answer) % 9 == 0
  {
    FirstMultipleOfNineAbove(sum) - sum
  }

  /** The guesser's loop (lines 14-18 of `the-party-math-trick-demo.tsx`, 32-36 of `index.tsx`). */
  method NextMultipleOfNine(sum: int) returns (multiple: int)
    ensures multiple % 9 == 0 && multiple >= 0
    ensures sum >= 0 ==> sum < multiple && multiple - 9 <= sum
    ensures sum < 0 ==> multiple == 0
    ensures multiple == FirstMultipleOfNineAbove(sum)
  {
    multiple := 0;
    while multiple <= sum
      invariant multiple % 9 == 0 && multiple >= 0
      invariant multiple == 0 || multiple - 9 <= sum
      decreases sum - multiple
    {
      multiple := multiple + 9;
    }
    if sum >= 0 {
      FirstMultipleUnique(sum, multiple);
    }
  }

  /**
   * The trick works: when the revealed digits and a hidden digit d from 1 to 9 add up to a
   * multiple of 9, the guesser answers d.
   */
  lemma HiddenDigitRecovered(revealed: seq<int>, d: int)
    requires Sum(revealed) >= 0 && 1 <= d <= 9
    requires (Sum(revealed) + d) % 9 == 0
    ensures Guess(Sum(revealed)) == d
  {
    var s := Sum(revealed);
    var g := Guess(s);
    MultiplesOfNine(s + d, s + g);
    assert (d - g) % 9 == 0 by {
      assert (s + g) - (s + d) == g - d;
      MultiplesOfNine(0, g - d);
    }
    assert -9 < d - g < 9;
  }

  /**
   * Why 0 may not be hidden: when the revealed digits alone add up to a multiple of 9, the
   * hidden digit was 0 or 9, and the guesser answers 9 either way.
   */
  lemma HiddenZeroReadsAsNine(revealed: seq<int>)
    requires Sum(revealed) >= 0 && Sum(revealed) % 9 == 0
    ensures Guess(Sum(revealed)) == 9
  {
    HiddenDigitRecovered(revealed, 9);
  }

  // ---------------------------------------------------------------------------------------
  // Hiding a digit: findIndex, then splice on a copy
  // ---------------------------------------------------------------------------------------

  /** `findIndex(val => val === d)`: the first position holding d, or -1. */
  function IndexOf(s: seq<int>, d: int): (i: int)
    ensures -1 <= i < |s|
    ensures i == -1 <==> d !in s
    ensures 0 <= i ==> s[i] == d && d !in s[..i]
  {
    if s == [] then -1
    else if s[0] == d then 0
    else
      var j := IndexOf(s[1..], d);
      assert s == [s[0]] + s[1..];
      if j < 0 then -1
      else
        assert s[..j + 1] == [s[0]] + s[1..][..j];
        j + 1
  }

  /**
   * `copy.splice(start, 1)`: removes at most one element.  A negative start counts from the
   * end (-1 is the last element) and is clamped to the array, as JavaScript does.
   */
  function SpliceOne(a: seq<int>, start: int): (r: seq<int>)
    ensures 0 <= start < |a| ==> r == a[..start] + a[start + 1..]
    ensures -|a| <= start < 0 ==> r == a[..|a| + start] + a[|a| + start + 1..]
    ensures start < -|a| && a != [] ==> r == a[1..]
    ensures start >= |a| ==> r == a
    ensures a == [] ==> r == []
  {
    var k := if start < 0 then (if |a| + start < 0 then 0 else |a| + start)
             else (if start > |a| then |a| else start);
    if k < |a| then a[..k] + a[k + 1..] else a
  }

  /**
   * The digits a player reveals after hiding d: `digits` with `findIndex`'s position spliced
   * out.  When d does not occur, `findIndex` gives -1 and `splice(-1, 1)` drops the last
   * digit instead; the page never asks for that, since it offers only digits that occur.
   */
  function WithoutFirst(digits: seq<int>, d: int): (r: seq<int>)
    ensures d in digits ==> r == digits[..IndexOf(digits, d)] + digits[IndexOf(digits, d) + 1..]
    ensures d !in digits ==> r == if digits == [] then [] else digits[..|digits| - 1]
  {
    SpliceOne(digits, IndexOf(digits, d))
  }

  /** `splice(i, 1)` at a position inside the array takes out exactly that element. */
  lemma SpliceAt(a: seq<int>, i: int)
    requires 0 <= i < |a|
    ensures SpliceOne(a, i) == a[..i] + a[i + 1..]
    ensures multiset(SpliceOne(a, i)) == multiset(a) - multiset{a[i]}
  {
    assert a == a[..i] + [a[i]] + a[i + 1..];
    assert multiset(a) == multiset(a[..i]) + multiset{a[i]} + multiset(a[i + 1..]);
  }

  /**
   * When d occurs, exactly its first occurrence goes: everything else stays in order, one
   * element fewer, and the sum drops by d.
   */
  lemma WithoutFirstPresent(digits: seq<int>, d: int)
    requires d in digits
    ensures 0 <= IndexOf(digits, d) < |digits|
    ensures WithoutFirst(digits, d) == digits[..IndexOf(digits, d)] + digits[IndexOf(digits, d) + 1..]
    ensures |WithoutFirst(digits, d)| == |digits| - 1
    ensures Sum(WithoutFirst(digits, d)) == Sum(digits) - d
    ensures multiset(WithoutFirst(digits, d)) == multiset(digits) - multiset{d}
    ensures AllDigits(digits) ==> AllDigits(WithoutFirst(digits, d))
  {
    var i := IndexOf(digits, d);
    var r := WithoutFirst(digits, d);
    assert r == SpliceOne(digits, i);
    SpliceAt(digits, i);
    SumWithout(digits, i);
    if AllDigits(digits) {
      forall k | 0 <= k < |r| ensures IsDigit(r[k]) {
        if k < i { assert r[k] == digits[..i][k]; } else { assert r[k] == digits[i + 1..][k - i]; }
      }
    }
  }

  /** The buttons the page offers (`filter`): the digits other than 0 and 9. */
  function OfferedDigits(digits: seq<int>): (offered: seq<int>)
    ensures forall x :: x in offered <==> x in digits && x != 0 && x != 9
    ensures AllDigits(digits) ==> forall x :: x in offered ==> 1 <= x <= 8
  {
    if digits == [] then []
    else
      var rest := OfferedDigits(digits[1..]);
      assert forall x :: x in digits <==> x == digits[0] || x in digits[1..];
      if digits[0] != 0 && digits[0] != 9 then [digits[0]] + rest else rest
  }

  // ---------------------------------------------------------------------------------------
  // The whole trick
  // ---------------------------------------------------------------------------------------

  /**
   * For any number and any rearrangement of its digits (leading zeros allowed), hiding any
   * non-zero digit of the difference and revealing the rest makes the guesser answer that digit.
   */
  lemma TrickRoundTrip(ds: seq<int>, es: seq<int>, d: int)
    requires AllDigits(ds) && AllDigits(es) && multiset(ds) == multiset(es)
    requires d in Digits(AbsDiff(Value(ds), Value(es))) && d != 0
    ensures Guess(Sum(WithoutFirst(Digits(AbsDiff(Value(ds), Value(es))), d))) == d
  {
    var diff := AbsDiff(Value(ds), Value(es));
    PermutationDifference(ds, es);
    RevealedDigitsGuessed(diff, d);
  }

  /** The digits of a multiple of 9 add up to a multiple of 9. */
  lemma DigitSumOfMultiple(n: nat)
    requires n % 9 == 0
    ensures Sum(Digits(n)) % 9 == 0
  {
    var total := Sum(Digits(n));
    DigitSumCongruent(n);
    MultiplesOfNine(n, n - total);
    assert n - (n - total) == total;
  }

  /** Hiding a non-zero digit d of a list of digits whose total is a multiple of 9: the guesser answers d. */
  lemma RevealedSum(digits: seq<int>, d: int)
    requires AllDigits(digits) && d in digits && d != 0 && Sum(digits) % 9 == 0
    ensures Sum(WithoutFirst(digits, d)) == Sum(digits) - d >= 0
    ensures Guess(Sum(WithoutFirst(digits, d))) == d
  {
    WithoutFirstPresent(digits, d);
    SumOfDigitsBounds(WithoutFirst(digits, d));
    HiddenDigitRecovered(WithoutFirst(digits, d), d);
  }

  /** The second half of the round trip: any multiple of 9, with a non-zero digit of it hidden. */
  lemma RevealedDigitsGuessed(diff: nat, d: int)
    requires diff % 9 == 0 && d in Digits(diff) && d != 0
    ensures Guess(Sum(WithoutFirst(Digits(diff), d))) == d
  {
    DigitSumOfMultiple(diff);
    RevealedSum(Digits(diff), d);
  }

  /**
   * Every button the page offers leads to a correct answer.  The two numbers are given by
   * the digits the player typed, leading zeros included: 7034 scrambled as "0437" is 437.
   */
  lemma OfferedDigitGuessed(typed: seq<int>, scrambled: seq<int>, d: int)
    requires AllDigits(typed) && AllDigits(scrambled) && multiset(typed) == multiset(scrambled)
    requires d in OfferedDigits(Digits(AbsDiff(Value(typed), Value(scrambled))))
    ensures 1 <= d <= 8
    ensures Guess(Sum(WithoutFirst(Digits(AbsDiff(Value(typed), Value(scrambled))), d))) == d
  {
    TrickRoundTrip(typed, scrambled, d);
  }

  /** The article's example: 7834 and 4837 give 2997, whose digits are 2, 9, 9, 7. */
  lemma WorkedExample()
    ensures AbsDiff(7834, 4837) == 2997 && Digits(2997) == [2, 9, 9, 7]
  {
    assert Digits(299) == [2, 9, 9] by {
      assert Digits(29) == [2, 9] by { assert Digits(2) == [2]; }
    }
  }

  /** Hiding the 2 of 2997 reveals 9, 9, 7, and the guesser answers 2. */
  lemma WorkedExampleHideTwo()
    ensures WithoutFirst([2, 9, 9, 7], 2) == [9, 9, 7] && Guess(Sum([9, 9, 7])) == 2
  {
    assert IndexOf([2, 9, 9, 7], 2) == 0;
    assert SpliceOne([2, 9, 9, 7], 0) == [2, 9, 9, 7][1..] == [9, 9, 7];
    assert Sum([9, 9, 7]) == 25 by {
      assert [9, 9, 7][..2] == [9, 9] && [9, 9][..1] == [9];
    }
  }

  /** Hiding the 7 of 2997 reveals 2, 9, 9, and the guesser answers 7. */
  lemma WorkedExampleHideSeven()
    ensures WithoutFirst([2, 9, 9, 7], 7) == [2, 9, 9] && Guess(Sum([2, 9, 9])) == 7
  {
    assert IndexOf([2, 9, 9, 7], 7) == 3 by {
      assert IndexOf([7], 7) == 0;
      assert [9, 9, 7][1..] == [9, 7] && [9, 7][1..] == [7];
    }
    assert Sum([2, 9, 9]) == 20 by {
      assert [2, 9, 9][..2] == [2, 9] && [2, 9][..1] == [2];
    }
  }

  /** Revealing 1, 1, 1 gets the answer 6; revealing nothing gets 9. */
  lemma SmallExamples()
    ensures Guess(Sum([1, 1, 1])) == 6 && Guess(Sum([])) == 9
  {
    assert Sum([1, 1, 1]) == 3 by {
      assert [1, 1, 1][..2] == [1, 1] && [1, 1][..1] == [1];
    }
  }
}
