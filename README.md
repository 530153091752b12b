# The party math trick and the article registry, in Dafny

This project models the two pieces of real computation in a personal website and blog.

**The party math trick.** A player writes a number and scrambles its digits. They subtract the smaller number from the larger. Then they hide one digit of the difference that is not 0 or 9 and reveal the rest. The site guesses the hidden digit.
- The page computes the difference and splits it into decimal digits. It offers one button per digit other than 0 and 9. Pressing a button removes the first occurrence of that digit and posts the remaining digits.
- The server action adds up the posted digits. It counts up from 0 in steps of 9 until it passes that sum, and answers the gap.

The route exists in two revisions:
- `app/routes/the-party-math-trick-demo.tsx` (module `TrickDemo`). The action sums with `reduce` and answers "Something went wrong" when the request fails. A digit button posts at once.
- `app/routes/the-party-math-trick-demo/index.tsx` (module `TrickDemoIndex`). The action sums with a counting loop and answers nothing when the request fails. The chosen digits are kept in component state and posted by a separate submit.

The arithmetic both revisions share lives in module `TrickArith`. It contains the decimal expansion and its inverse, sums, casting out nines, `findIndex` and `splice`, the 0/9 button filter, and the guesser's loop. On top of that it proves the whole trick: for any number and any rearrangement of its digits, hiding any non-zero digit of the difference makes the guesser answer that digit.

**The article registry.** There are also two revisions here:
- `app/utils/articles.ts` (module `Articles`, which also holds the shared record types).
- `app/post.ts` (module `PostIndex`).

Both list the imported article modules and project each one's metadata. Both build a slug → article map with `reduce` and object spread, where a later article overwrites an earlier one with the same slug. Both look articles up by slug. Article contents come from `.mdx` files that are not part of this model, so each registry operation takes `load`, the module each import yields.

The component state that React keeps with `useState` becomes a `MathTrick` class per revision. Its setters are methods with `modifies` clauses, and the derived values (`subtractionResult`, `digits`) are functions that read the object. The loops of both actions are `while`/`for` loops with invariants. The registry is pure and stays as functions.

Two behaviours of the code are modelled as they are:
- The guesser does not check that the posted values are digits. It answers for any integers, and a negative sum gives `-sum`.
- Removing a digit that does not occur drops the last digit, because `findIndex` gives -1 and `splice(-1, 1)` removes the last element.

## Model

| member | source | states |
|---|---|---|
| `TrickArith.ParseIntOrZero` | app/routes/the-party-math-trick-demo/index.tsx:59-65 | text that does not parse gives 0; otherwise the parsed number (a parse of 0 stays 0) |
| `TrickArith.AbsDiff` | app/routes/the-party-math-trick-demo.tsx:48-50 | the difference is never negative and is exactly the gap between the two numbers, in whichever direction |
| `TrickArith.Digits` | app/routes/the-party-math-trick-demo.tsx:52 | the expansion has at least one element, every element is a digit 0..9, and there is no leading zero: a leading 0 occurs only in `[0]`, the expansion of 0 |
| `TrickArith.ValueOfDigits` | app/routes/the-party-math-trick-demo.tsx:52 | reading the expansion back as a decimal number gives the original number (nothing is lost) |
| `TrickArith.DigitsOfValue` | app/routes/the-party-math-trick-demo.tsx:52 | conversely, a digit list without leading zeros is the expansion of the number it spells |
| `TrickArith.SumOfPermutation` | app/routes/the-party-math-trick-demo.tsx:12 | the total does not depend on the order of the elements |
| `TrickArith.DigitSumCongruent` | app/components/Articles/ThePartyMathTrick.tsx:10-16 | a number and the sum of its decimal digits differ by a multiple of 9 (casting out nines) |
| `TrickArith.PermutationDifference` | app/components/Articles/ThePartyMathTrick.tsx:10 | two digit lists that are rearrangements of each other (leading zeros allowed) spell numbers whose difference is a multiple of 9 |
| `TrickArith.ScrambledDifference` | app/components/Articles/ThePartyMathTrick.tsx:10 | the same for two numbers whose decimal expansions are rearrangements of each other |
| `TrickArith.FirstMultipleOfNineAbove` | app/routes/the-party-math-trick-demo.tsx:14-18 | where counting up in nines from 0 stops: a multiple of 9, above a non-negative sum by at most 9, and 0 for a negative sum |
| `TrickArith.NextMultipleOfNine` | app/routes/the-party-math-trick-demo.tsx:14-18 | the loop ends with `multiple` a multiple of 9, greater than the sum and with `multiple - 9 <= sum` (the least such); 0 when the sum is negative |
| `TrickArith.Guess` | app/routes/the-party-math-trick-demo.tsx:20 | for a non-negative sum the answer `multiple - sum` lies in 1..9, and the sum plus the answer is a multiple of 9 |
| `TrickArith.HiddenDigitRecovered` | app/routes/the-party-math-trick-demo.tsx:12-20 | round trip: when the revealed digits and a hidden digit d in 1..9 add up to a multiple of 9, the answer is d |
| `TrickArith.HiddenZeroReadsAsNine` | app/routes/the-party-math-trick-demo.tsx:80 | why 0 may not be hidden: when the revealed digits alone add up to a multiple of 9 (0 or 9 hidden), the answer is 9 |
| `TrickArith.IndexOf` | app/routes/the-party-math-trick-demo.tsx:56 | `findIndex` gives -1 exactly when the digit is absent; otherwise a position holding the digit with no earlier occurrence |
| `TrickArith.WithoutFirstPresent` | app/routes/the-party-math-trick-demo.tsx:55-58 | for a digit that occurs, only its first occurrence is removed and all other elements keep their order; one element fewer, the sum drops by the digit, the multiset loses one copy, and all elements stay digits |
| `TrickArith.SpliceOne` | app/routes/the-party-math-trick-demo.tsx:58 | `splice(start, 1)` removes exactly the element at a start inside the array; a negative start counts from the end; a start before the beginning removes the first element; a start at or past the end removes nothing; an empty array stays empty |
| `TrickArith.WithoutFirst` | app/routes/the-party-math-trick-demo.tsx:55-58 | for a digit that occurs, the list without the element at `findIndex`'s position; for a digit that does not occur, the list without its last element (`splice(-1, 1)`), and `[]` for `[]` |
| `TrickArith.OfferedDigits` | app/routes/the-party-math-trick-demo.tsx:80-81 | a value is offered exactly when it occurs among the digits and is neither 0 nor 9, so every offered value is in 1..8 |
| `TrickArith.RevealedDigitsGuessed` | app/routes/the-party-math-trick-demo.tsx:52-58 | for any multiple of 9, hiding any non-zero digit of its expansion and summing the rest makes the guesser answer that digit |
| `TrickArith.TrickRoundTrip` | app/components/Articles/ThePartyMathTrick.tsx:8-16 | the whole trick: for any number and any rearrangement of its digits, hiding any non-zero digit of the difference makes the guesser answer it |
| `TrickArith.OfferedDigitGuessed` | app/routes/the-party-math-trick-demo.tsx:80-84 | for any typed digits and any rearrangement of them (leading zeros allowed, so 7034 and "0437"), every button the page offers is a digit in 1..8 that the guesser recovers |
| `TrickArith.WorkedExample` | app/components/Articles/ThePartyMathTrick.tsx:14 | 7834 and 4837 give 2997, whose digits are [2, 9, 9, 7] |
| `TrickArith.WorkedExampleHideTwo` | app/components/Articles/ThePartyMathTrick.tsx:16 | hiding the 2 of 2997 reveals 9, 9, 7, and the answer is 2 |
| `TrickArith.WorkedExampleHideSeven` | app/components/Articles/ThePartyMathTrick.tsx:14 | hiding the 7 of 2997 reveals 2, 9, 9, and the answer is 7 |
| `TrickArith.SmallExamples` | app/routes/the-party-math-trick-demo.tsx:10-20 | revealing 1, 1, 1 answers 6, and revealing nothing answers 9 |
| `TrickArith.SumAppend` | app/routes/the-party-math-trick-demo.tsx:12 | the left-to-right total of `reduce` (and of the counting loop at index.tsx:26-30) splits over concatenation: the total of `a + b` is the total of `a` plus the total of `b` |
| `TrickArith.DigitSumOfMultiple` | app/components/Articles/ThePartyMathTrick.tsx:10-16 | the decimal digits of a multiple of 9 add up to a multiple of 9 |
| `TrickArith.SumOfDigitsBounds` | app/routes/the-party-math-trick-demo.tsx:12 | a list of digits adds up to between 0 and 9 per element |
| `TrickDemo.Action` | app/routes/the-party-math-trick-demo.tsx:5-27 | a failed request answers "Something went wrong"; `null` answers 9; a list answers the guess for its `reduce` total, in 1..9 for digits, and complements that total to a multiple of 9 |
| `TrickDemo.MathTrick.constructor` | app/routes/the-party-math-trick-demo.tsx:35-36 | both numbers start at 0 |
| `TrickDemo.MathTrick.HandleInitialNumber` | app/routes/the-party-math-trick-demo.tsx:40-42 | the first number becomes the parsed text or 0; the other number is unchanged |
| `TrickDemo.MathTrick.HandleScrambledNumber` | app/routes/the-party-math-trick-demo.tsx:44-46 | the scrambled number becomes the parsed text or 0; the other number is unchanged |
| `TrickDemo.MathTrick.SubtractionResult` | app/routes/the-party-math-trick-demo.tsx:48-50 | the shown difference is never negative and is the gap between the two numbers |
| `TrickDemo.MathTrick.DigitList` | app/routes/the-party-math-trick-demo.tsx:52 | `digits` is the decimal expansion of the difference: a non-empty list of digits 0..9 that spells it, whose first digit is 0 only when the list is `[0]` (the difference 0) |
| `TrickDemo.MathTrick.Buttons` | app/routes/the-party-math-trick-demo.tsx:80-87 | a button is shown for a value exactly when it is one of the digits and lies in 1..8 |
| `TrickDemo.MathTrick.StoreRemainingDigits` | app/routes/the-party-math-trick-demo.tsx:55-64 | posts `digits` with the first occurrence of the chosen digit removed; for a present digit that is one element fewer, with the sum and multiset reduced by that digit; the state is untouched |
| `TrickDemo.PlayRound` | app/routes/the-party-math-trick-demo.tsx:66-89 | typing a number and a rearrangement of its digits (a leading 0 included, which `parseInt` drops), then pressing any offered button, makes the action answer that button's digit |
| `TrickDemoIndex.Action` | app/routes/the-party-math-trick-demo/index.tsx:11-45 | after the `for` loop the running total is the sum of all posted numbers; a failed request answers nothing; `null` answers 9; a list answers the guess for its sum, in 1..9 for digits |
| `TrickDemoIndex.MathTrick.constructor` | app/routes/the-party-math-trick-demo/index.tsx:53-73 | both numbers start at 0 and `digitsToSubmit` starts empty |
| `TrickDemoIndex.MathTrick.HandleInitialNumber` | app/routes/the-party-math-trick-demo/index.tsx:59-61 | the first number becomes the parsed text or 0; nothing else changes |
| `TrickDemoIndex.MathTrick.HandleScrambledNumber` | app/routes/the-party-math-trick-demo/index.tsx:63-65 | the scrambled number becomes the parsed text or 0; nothing else changes |
| `TrickDemoIndex.MathTrick.SubtractionResult` | app/routes/the-party-math-trick-demo/index.tsx:67-69 | the shown difference is never negative and is the gap between the two numbers |
| `TrickDemoIndex.MathTrick.DigitList` | app/routes/the-party-math-trick-demo/index.tsx:71 | `digits` is the decimal expansion of the difference: a non-empty list of digits 0..9 that spells it, whose first digit is 0 only when the list is `[0]` (the difference 0) |
| `TrickDemoIndex.MathTrick.StoreRemainingDigits` | app/routes/the-party-math-trick-demo/index.tsx:75-79 | `digitsToSubmit` becomes `digits` with the first occurrence of the chosen digit removed (one element fewer and the sum less that digit when it is present); the numbers do not change |
| `TrickDemoIndex.MathTrick.SubmitRequest` | app/routes/the-party-math-trick-demo/index.tsx:98-102 | posts exactly `digitsToSubmit` |
| `TrickDemoIndex.SubmitWithoutChoosing` | app/routes/the-party-math-trick-demo/index.tsx:73-101 | submitting before any digit is chosen posts the empty list, and the answer is 9 |
| `TrickDemoIndex.PlayRound` | app/routes/the-party-math-trick-demo/index.tsx:104-130 | typing a number and a rearrangement of its digits (a leading 0 included, which `parseInt` drops), choosing any offered digit and submitting makes the action answer that digit |
| `Articles.GetArticles` | app/utils/articles.ts:27-37 | six articles, in listing order, and every imported article module is among them |
| `Articles.GetPostMetadata` | app/utils/articles.ts:39-43 | copies slug, title and description from `attributes.meta` unchanged (app/post.ts:33-37 is the same function, used by `PostIndex`) |
| `Articles.Slug` | app/utils/articles.ts:76 | the key an article is stored under, `getArticleSlug(getPostMetadata(curr))`, is the slug of its `attributes.meta` |
| `Articles.MetadataList` | app/utils/articles.ts:54 | `map(getPostMetadata)`: same length as the list, element i is the metadata of article i |
| `Articles.GetPosts` | app/utils/articles.ts:52-56 | same length and order as `getArticles`, element i being article i's `attributes.meta` |
| `Articles.GetArticleData` | app/utils/articles.ts:45-50 | equals `getPosts` |
| `Articles.LastIndexOfSlug` | app/utils/articles.ts:73-78 | the position of an article with the slug after which no article has it, or -1 when none has it |
| `Articles.SlugMap` | app/utils/articles.ts:73-78 | a slug is a key exactly when some article of the list carries it, and the key holds the last article listed with that slug |
| `Articles.GetArticleMap` | app/utils/articles.ts:72-79 | the key set is exactly the set of slugs of `getArticles`, and each key holds the last article of that list carrying that slug (a later article overwrites an earlier one) |
| `Articles.Lookup` | app/utils/articles.ts:60-70 | a missing or empty slug gives nothing; otherwise an article is found exactly when the slug is one of the list's slugs, and it is the last one listed with it |
| `Articles.PropertyRead` | app/utils/articles.ts:67 | reading `obj[key]` yields the own property when there is one; otherwise the inherited `Object.prototype` member when `key` names one, and `undefined` exactly when it does not |
| `Articles.LookupAsWritten` | app/utils/articles.ts:60-70 | `getPost` as written: a missing or empty slug gives `undefined`; a listed slug gives the last article with it; an unlisted slug gives the inherited property when it names one and `undefined` otherwise |
| `Articles.GetPostAsWritten` | app/utils/articles.ts:60-70 | over `getArticles`: a missing or empty slug gives `undefined`; a listed non-empty slug finds the same article as the corrected `GetPost`; an unlisted slug yields the inherited property when it names an `Object.prototype` member and `undefined` otherwise |
| `Articles.LookupAsWrittenDiffers` | app/utils/articles.ts:67 | the written lookup agrees with the intended one on every found article and on every unknown slug outside the inherited property names; on an inherited name no article owns, it yields the inherited property |
| `Articles.InheritedSlugFound` | app/utils/articles.ts:60-69 | when no article is slugged "constructor", the written `getPost("constructor")` yields the inherited property, not `undefined` |
| `Articles.GetPost` | app/utils/articles.ts:60-70 | `getPost(undefined)` and `getPost("")` give nothing; a slug gives an article exactly when some article of `getArticles` has it, and then the last one listed with it |
| `PostIndex.MdxArticles` | app/post.ts:25-31 | five articles in listing order |
| `PostIndex.ArticleData` | app/post.ts:41 | the metadata of the five articles, element i being article i's `attributes.meta` |
| `PostIndex.GetPosts` | app/post.ts:50-52 | returns `articleData` |
| `PostIndex.ArticleMap` | app/post.ts:43-48 | the key set is exactly the slugs of the five articles, and each key holds the last article listed with it, no later article sharing the slug |
| `PostIndex.GetPostAsWritten` | app/post.ts:54-62 | `getPost` as written: a missing or empty slug gives `undefined`; a non-empty key of `articleMap` finds that key's entry; a slug that is not a key yields the inherited property when it names an `Object.prototype` member and `undefined` otherwise |
| `PostIndex.InheritedSlugFound` | app/post.ts:54-61 | when no article is slugged "toString", the written `getPost("toString")` yields the inherited property, not `undefined` |
| `PostIndex.GetPost` | app/post.ts:54-62 | a missing or empty slug gives nothing; otherwise an article exactly when the slug is a key of `articleMap`, and it is that key's entry |

## Findings

| source | as written | input that shows it | evidently intended | confidence | as-written member | corrected member |
|---|---|---|---|---|---|---|
| app/utils/articles.ts:67 | `articleMap[slug]` reads a plain object, so it also finds the properties every object inherits | `getPost("constructor")` when no article has that slug yields `Object.prototype.constructor` | `undefined`, as the declared return type `undefined \| MDX` says, so that the blog route answers 404 | high; not executed | `Articles.InheritedSlugFound` | `Articles.GetPost` |
| app/post.ts:59 | the same read on the module-level `articleMap` | `getPost("toString")` when no article has that slug yields `Object.prototype.toString` | `undefined`, as the declared return type says | high; not executed | `PostIndex.InheritedSlugFound` | `PostIndex.GetPost` |

## Left out

- React rendering, Remix's `json`, `useSubmit`, `useFormAction`, `FormData` and the logging are left out. The posted field after `JSON.parse` is a parameter of the actions: text that does not parse, `null`, or a list of integers. `JSON.stringify` followed by `JSON.parse` is taken as the identity on lists of integers.
- Both actions: a posted value that is a number or a non-integer is not modelled, and neither is any other JSON value that is not a list of integers. JavaScript numbers are modelled as mathematical integers, so the precision loss and exponent notation of very large numbers are left out too.
- `parseInt`'s reading of the typed text is left out. The handlers take its result as a parameter, with None standing for `NaN`.
- React's deferred state updates are left out: `setDigitsToSubmit` takes effect at once in the model. In `index.tsx` the digit buttons sit inside the form without a `type`, so a press also submits the form. The model treats choosing a digit and submitting as two separate steps, as the page's Submit button does.
- The contents of the `.mdx` article modules are left out: their front matter, render function, headers and links. `load` stands for the module each import yields.
- Everything else in the repository is not part of this model: the blog-post code snippets about the `Trackable` wrapper and `Option`, the Express server with its database, sessions and login, browser scripts and hooks, and the build and static content.
