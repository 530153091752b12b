/**
 * The party math trick route in `the-party-math-trick-demo/index.tsx`: the action sums with
 * a counting loop and answers nothing when the request fails; the page keeps the digits to
 * post in state and posts them only when the form is submitted.
 */
module TrickDemoIndex {

  import opened Wrappers
  import opened TrickArith

  /**
   * `action`: None stands for the `undefined` the `catch` branch returns after logging.
   * Null counts as an empty list, whose answer is 9.
   */
  method Action(field: FormField) returns (reply: Option<int>)
    ensures field.Malformed? ==> reply == None
    ensures field.Null? ==> reply == Some(9)
    ensures field.Numbers? ==> reply == Some(Guess(Sum(field.values)))
    ensures field.Numbers? && AllDigits(field.values) ==> 1 <= reply.value <= 9
  {
    if field.Malformed? {
      return None;
    }
    var remainingDigits := if field.Null? then [] else field.values;

    if AllDigits(remainingDigits) {
      SumOfDigitsBounds(remainingDigits);
    }
    var sumOfRemainingDigits := 0;
    for i := 0 to |remainingDigits|
      invariant sumOfRemainingDigits == Sum(remainingDigits[..i])
    {
      assert remainingDigits[..i + 1][..i] == remainingDigits[..i];
      sumOfRemainingDigits := sumOfRemainingDigits + remainingDigits[i];
    }
    assert remainingDigits[..|remainingDigits|] == remainingDigits;

    var multiple := NextMultipleOfNine(sumOfRemainingDigits);
    reply := Some(multiple - sumOfRemainingDigits);
  }

  /** The page component: the two numbers and the digits chosen for posting, in component state. */
  class MathTrick {

    var initialNumber: int
    var scrambledNumber: int
    var digitsToSubmit: seq<int>

    constructor ()
      ensures initialNumber == 0 && scrambledNumber == 0 && digitsToSubmit == []
    {
      initialNumber, scrambledNumber, digitsToSubmit := 0, 0, [];
    }

    /** `handleInitialNumber`: `parsed` is what `parseInt` made of the typed text, None for `NaN`. */
    method HandleInitialNumber(parsed: Option<int>)
      modifies this`initialNumber
      ensures initialNumber == ParseIntOrZero(parsed)
      ensures scrambledNumber == old(scrambledNumber) && digitsToSubmit == old(digitsToSubmit)
    {
      initialNumber := ParseIntOrZero(parsed);
    }

    method HandleScrambledNumber(parsed: Option<int>)
      modifies this`scrambledNumber
      ensures scrambledNumber == ParseIntOrZero(parsed)
      ensures initialNumber == old(initialNumber) && digitsToSubmit == old(digitsToSubmit)
    {
      scrambledNumber := ParseIntOrZero(parsed);
    }

    /** `subtractionResult`: never negative, and the gap between the two numbers. */
    function SubtractionResult(): (r: nat)
      reads this
      ensures initialNumber + r == scrambledNumber || scrambledNumber + r == initialNumber
    {
      AbsDiff(initialNumber, scrambledNumber)
    }

    /** `digits`: the decimal digits of the difference, most significant first. */
    function DigitList(): (ds: seq<int>)
      reads this
      ensures |ds| >= 1 && AllDigits(ds)
      ensures Value(ds) == SubtractionResult()
      ensures ds[0] != 0 || SubtractionResult() == 0
      ensures ds[0] != 0 || |ds| == 1
    {
      ValueOfDigits(SubtractionResult());
      Digits(SubtractionResult())
    }

    /**
     * `storeRemainingDigits`: `digitsToSubmit` becomes the digits with the first occurrence
     * of `digit` spliced out; the numbers stay as they are.
     */
    method StoreRemainingDigits(digit: int)
      modifies this`digitsToSubmit
      ensures digitsToSubmit == WithoutFirst(DigitList(), digit)
      ensures initialNumber == old(initialNumber) && scrambledNumber == old(scrambledNumber)
      ensures digit in DigitList() ==>
        |digitsToSubmit| == |DigitList()| - 1 && Sum(digitsToSubmit) == Sum(DigitList()) - digit
    {
      var digits := DigitList();
      var indexOfDigitToExclude := IndexOf(digits, digit);
      var copy := digits;
      copy := SpliceOne(copy, indexOfDigitToExclude);
      if digit in digits {
        WithoutFirstPresent(digits, digit);
      }
      digitsToSubmit := copy;
    }

    /** `submitRequest`: posts exactly the stored digits as `remainingDigits`. */
    method SubmitRequest() returns (submitted: FormField)
      ensures submitted == Numbers(digitsToSubmit)
    {
      submitted := Numbers(digitsToSubmit);
    }
  }

  /** Submitting before any digit is chosen posts the empty list, and the answer is 9. */
  method SubmitWithoutChoosing() returns (reply: Option<int>)
    ensures reply == Some(9)
  {
    var page := new MathTrick();
    var field := page.SubmitRequest();
    reply := Action(field);
  }

  /**
   * One round on this page: type a number and a rearrangement of its digits, choose one of
   * the offered digits, submit, and the action answers that digit.  `typed` and `retyped`
   * are the digits as typed, leading zeros included.
   */
  method PlayRound(ghost typed: seq<int>, ghost retyped: seq<int>, initial: nat, scrambled: nat, digit: int) returns (reply: Option<int>)
    requires AllDigits(typed) && AllDigits(retyped) && multiset(typed) == multiset(retyped)
    requires Value(typed) == initial && Value(retyped) == scrambled
    requires digit in OfferedDigits(Digits(AbsDiff(initial, scrambled)))
    ensures reply == Some(digit)
  {
    var page := new MathTrick();
    page.HandleInitialNumber(Some(initial));
    page.HandleScrambledNumber(Some(scrambled));
    page.StoreRemainingDigits(digit);
    var field := page.SubmitRequest();
    OfferedDigitGuessed(typed, retyped, digit);
    reply := Action(field);
  }
}
