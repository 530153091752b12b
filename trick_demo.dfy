/**
 * The party math trick route as a single file: the server action that guesses the hidden
 * digit, and the page that computes the difference, offers the digits and posts the rest.
 */
module TrickDemo {

  import opened Wrappers
  import opened TrickArith

  /** The action's JSON reply: a numeric answer, or the fallback text when the request fails. */
  datatype Reply = Answer(answer: int) | Failed(message: string)

  const SomethingWentWrong := "Something went wrong"

  /**
   * `action`: reads `remainingDigits` (null counts as an empty list), sums it with
   * `reduce`, counts up to the next multiple of 9 and answers the gap.
   */
  method Action(field: FormField) returns (reply: Reply)
    ensures field.Malformed? ==> reply == Failed(SomethingWentWrong)
    ensures field.Null? ==> reply == Answer(9)
    ensures field.Numbers? ==> reply == Answer(Guess(Sum(field.values)))
    ensures field.Numbers? && AllDigits(field.values) ==> 1 <= reply.answer <= 9
    ensures field.Numbers? ==> (Sum(field.values) + reply.answer) % 9 == 0
  {
    if field.Malformed? {
      return Failed(SomethingWentWrong);
    }
    var remainingDigits := if field.Null? then [] else field.values;
    if AllDigits(remainingDigits) {
      SumOfDigitsBounds(remainingDigits);
    }
    var sumOfRemainingDigits := Sum(remainingDigits);
    var multiple := NextMultipleOfNine(sumOfRemainingDigits);
    reply := Answer(multiple - sumOfRemainingDigits);
  }

  /** The page component: two numeric inputs kept in component state. */
  class MathTrick {

    var initialNumber: int
    var scrambledNumber: int

    constructor ()
      ensures initialNumber == 0 && scrambledNumber == 0
    {
      initialNumber, scrambledNumber := 0, 0;
    }

    /** `handleInitialNumber`: `parsed` is what `parseInt` made of the typed text, None for `NaN`. */
    method HandleInitialNumber(parsed: Option<int>)
      modifies this`initialNumber
      ensures initialNumber == ParseIntOrZero(parsed)
      ensures scrambledNumber == old(scrambledNumber)
    {
      initialNumber := ParseIntOrZero(parsed);
    }

    method HandleScrambledNumber(parsed: Option<int>)
      modifies this`scrambledNumber
      ensures scrambledNumber == ParseIntOrZero(parsed)
      ensures initialNumber == old(initialNumber)
    {
      scrambledNumber := ParseIntOrZero(parsed);
    }

    /** `subtractionResult`: never negative, and the gap between the two numbers. */
    function SubtractionResult(): (r: nat)
      reads this
      ensures initialNumber + r == scrambledNumber || scrambledNumber + r == initialNumber
    {
      AbsDiff(initialNumber, scrambledNumber)
    }

    /** `digits`: the decimal digits of the difference, most significant first. */
    function DigitList(): (ds: seq<int>)
      reads this
      ensures |ds| >= 1 && AllDigits(ds)
      ensures Value(ds) == SubtractionResult()
      ensures ds[0] != 0 || SubtractionResult() == 0
      ensures ds[0] != 0 || |ds| == 1
    {
      ValueOfDigits(SubtractionResult());
      Digits(SubtractionResult())
    }

    /** The digit buttons: every digit of the difference except 0 and 9, each one present. */
    function Buttons(): (offered: seq<int>)
      reads this
      ensures forall x :: x in offered <==> x in DigitList() && 1 <= x <= 8
    {
      OfferedDigits(DigitList())
    }

    /**
     * `storeRemainingDigits`: the list posted as `remainingDigits` when a digit button is
     * pressed; the component's own state is left alone.
     */
    method StoreRemainingDigits(digit: int) returns (submitted: FormField)
      ensures submitted == Numbers(WithoutFirst(DigitList(), digit))
      ensures digit in DigitList() ==>
        |submitted.values| == |DigitList()| - 1 &&
        Sum(submitted.values) == Sum(DigitList()) - digit &&
        multiset(submitted.values) == multiset(DigitList()) - multiset{digit}
    {
      var digits := DigitList();
      var indexOfDigitToExclude := IndexOf(digits, digit);
      var copy := digits;
      copy := SpliceOne(copy, indexOfDigitToExclude);
      if digit in digits {
        WithoutFirstPresent(digits, digit);
      }
      submitted := Numbers(copy);
    }
  }

  /**
   * One round of the trick on the page: type a number and a rearrangement of its digits,
   * press one of the offered digit buttons, and the action answers that digit.  `typed` and
   * `retyped` are the digits as typed; `parseInt` drops leading zeros, so "0437" gives 437.
   */
  method PlayRound(ghost typed: seq<int>, ghost retyped: seq<int>, initial: nat, scrambled: nat, digit: int) returns (reply: Reply)
    requires AllDigits(typed) && AllDigits(retyped) && multiset(typed) == multiset(retyped)
    requires Value(typed) == initial && Value(retyped) == scrambled
    requires digit in OfferedDigits(Digits(AbsDiff(initial, scrambled)))
    ensures reply == Answer(digit)
  {
    var page := new MathTrick();
    page.HandleInitialNumber(Some(initial));
    page.HandleScrambledNumber(Some(scrambled));
    var field := page.StoreRemainingDigits(digit);
    OfferedDigitGuessed(typed, retyped, digit);
    reply := Action(field);
  }
}
