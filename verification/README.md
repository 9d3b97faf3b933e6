# Parser combinators and parse-error locations, modelled in Dafny

This project models the two runtime parts of the `parsing` TypeScript library:

- the parser-combinator runtime of `src/index.ts`, where every combinator is a
  function `(i, s) => [end, value] | [end, null, "space"] | null`, built from
  `token` (a literal string or an anchored regular expression), `option`,
  `space`, `or`, `and`, `tree` and `ref`;
- the `ParsingError` class of `src/error.ts`, which turns an offset into the
  source text into `line` and `index` numbers and renders them in `toString`.

## Layout

- `wrappers.dfy` (`Wrappers`): `Option`, used for `undefined`/`null` arguments and results.
- `values.dfy` (`Values`): the JavaScript values parsers produce, JavaScript
  truthiness, and the two value-shaping rules of the source: the items a child
  contributes to `and` (`Items`), and the array a `tree` builder receives (`AsArray`).
- `combinators.dfy` (`Combinators`): the `Parser` datatype (one constructor per
  combinator), the environment a grammar closes over (`ref` thunks, `tree`
  builders, the regular-expression engine), and the evaluator `Run` with its
  helpers `RunOr` and `RunSeq`. `Run` is fuel-bounded: each `ref` expansion
  spends one unit, and running out gives `OutOfFuel`, which stands for the
  stack overflow the source hits on any `ref` recursion deeper than the
  JavaScript stack. It is not one of the source's outcomes.
- `combinator_laws.dfy` (`CombinatorLaws`): what each combinator promises,
  stated about `Run`, plus monotonicity of the index and adequacy of fuel.
- `loops.dfy` (`CombinatorLoops`): the `for` loops of `or` and `and` as the
  source writes them, proved equal to `Run`.
- `examples_grammar.dfy` (`GrammarExamples`): small grammars on concrete inputs.
- `decimal.dfy` (`Decimal`): `String(n)` for integers and its inverse.
- `js_strings.dfy` (`JsStrings`): the JavaScript string methods both source
  files use: `slice` with its index clamping, `startsWith` and `lastIndexOf`.
- `parsing_error.dfy` (`ParsingErrors`): the `/\r\n|\r|\n/g` match count, the default `sort()` order, the constructor
  and `toString`.
- `parsing_error_laws.dfy` (`ParsingErrorLaws`): what the computed `line` and
  `index` are, and that `toString` can be read back.

`Run`, `RunOr`, `RunSeq`, `Items`, `AsArray`, `LineOf`, `ColumnOf` and `ToString` are
definitions. `Values.Items` is the one-level flattening rule of
src/index.ts:60, and `Values.AsArray` the wrapping rule of src/index.ts:71.
The one-step lemmas `TokenLiteral`, `TokenPattern`, `OptionNeverFails`,
`SpaceTags`, `AndEmpty`, `TreeBuilds` and `RefUnfolds` unfold `Run` once and
state each combinator's success and failure conditions, end index
and value in the source's terms. The properties stated against separate
definitions are the loop equivalences (`OrLoop`, `AndLoop` against `Run`),
monotonicity and fuel adequacy, the concrete grammars, and the `ParsingError`
lemmas, which compare `LineOf`, `ColumnOf` and `ToString` with line-break
positions, `lastIndexOf` and a parser that reads the rendering back.

## Behaviour of the code worth knowing

- There is no hard-error outcome, no repetition, and no `ignore`, `map` or
  scan combinator; `space` and `tree` are the only combinators beyond
  `token`, `ref`, `option`, `or` and `and`.
- A pattern token advances by the length of the value it returns (group 1 if
  present, else the whole match), not by the span of the whole match (src/index.ts:16).
  With the `g` flag alone the anchored pattern matches at most once and element
  1 of the match array is `undefined` rather than group 1: capture groups are
  then never used, and `token(/"(.*)"/g)` keeps the quotes.
- `line` counts the line breaks after the offset, not before it, and `index`
  is 1 plus the position of a line break before the offset, not a column
  (src/error.ts:13-22).
- The pattern is anchored with `^` but keeps its flags (src/index.ts:15). With
  the `m` flag `^` also matches after a line break, so a pattern token can
  succeed although its text is not at `i`: `token(/b/m)` at 0 on "a\nb" gives
  `[1, "b"]` (`GrammarExamples.MultilineMatchesLater`).

## Model

| member | source | states |
|---|---|---|
| CombinatorLaws.TokenLiteral | src/index.ts:12-13 | a string token succeeds exactly when `s` holds the literal at `i` (or, past the end, when the literal is empty, since `startsWith` clamps its position); it then ends at `i + |p|` with value `p`, else returns `null` |
| CombinatorLaws.TokenPattern | src/index.ts:14-16 | a pattern token fails exactly when the engine reports no match; its value is group 1 when present, else the whole match, and it advances by the length of that value |
| CombinatorLaws.OptionNeverFails | src/index.ts:28-33 | `option` never returns `null`: inner failure gives `[i, null]` with the index unchanged, inner success gives the inner end and value without the space tag |
| CombinatorLaws.SpaceTags | src/index.ts:36-40 | `space(p)` succeeds exactly when `p` does, fails exactly when `p` does, and on success has `p`'s end, value `null` and the space tag |
| CombinatorLaws.OrFirstWins | src/index.ts:43-50 | `or` returns the first child result that is not `null`, unchanged, space tag included |
| CombinatorLaws.OrFailsIffAllFail | src/index.ts:43-50 | `or` fails if and only if every child fails, so `or()` always fails |
| CombinatorLaws.SeqSnoc | src/index.ts:54-62 | `and` threads the index left to right: `and(...ps, q)` is `and(...ps)` followed by `q` from where it ended, with `q`'s items appended |
| CombinatorLaws.AndEmpty | src/index.ts:54-63 | `and()` succeeds at `i` with an empty array |
| CombinatorLaws.AndFailsIff | src/index.ts:56-58 | `and` fails if and only if some child fails at the index where the children before it, run in order, ended |
| CombinatorLaws.TreeBuilds | src/index.ts:66-75 | `tree` succeeds exactly when the inner parser succeeds and the builder, given the inner value as an array, returns a truthy value; it keeps the inner end index, and a falsy builder result gives `null` just as an inner failure does |
| CombinatorLaws.RefUnfolds | src/index.ts:22-26 | `ref(f)(i, s)` is `f()(i, s)`, the thunk looked up at every application |
| CombinatorLaws.Monotone | src/index.ts:10-75 | with an engine whose match elements are no longer than the input they were taken from, every successful parse started at `i <= |s|` ends at `j` with `i <= j <= |s|` |
| CombinatorLaws.MonotoneOr | src/index.ts:43-50 | the same bound for `or`, the induction step through alternatives |
| CombinatorLaws.MonotoneSeq | src/index.ts:53-63 | the same bound for `and`, the induction step through the threaded index |
| CombinatorLaws.FuelAdequate | src/index.ts:22-26 | a result reached with some fuel is unchanged by more fuel: fuel bounds `ref` depth and never changes an answer |
| CombinatorLaws.FuelAdequateOr | src/index.ts:43-50 | the same for `or` |
| CombinatorLaws.FuelAdequateSeq | src/index.ts:53-63 | the same for `and` |
| CombinatorLoops.OrLoop | src/index.ts:43-50 | the `for` loop of `or`, returning on the first non-null result, computes what `Run` gives `or` |
| CombinatorLoops.AndLoop | src/index.ts:53-63 | the `for` loop of `and`, pushing each non-space child's items and returning `null` on the first failure, computes what `Run` gives `and` |
| CombinatorLoops.SeqPrefixStops | src/index.ts:56-58 | once some child has failed, the rest of `and` cannot make it succeed |
| GrammarExamples.FlattensOneLevel | src/index.ts:60 | `and(and(token("1")), token("2"))` on "12" gives `["1", "2"]`, not `[["1"], "2"]` |
| GrammarExamples.FirstAlternativeWins | src/index.ts:45-47 | `or(token("a"), token("ab"))` on "ab" matches only "a" |
| GrammarExamples.RecursiveSum | src/index.ts:22-26 | a grammar that refers to itself through `ref` parses "1+2+3" completely into `["1", "+", "2", "+", "3"]` |
| GrammarExamples.SpaceContributesNothing | example/helloWorld.ts:3-4 | the hello-world grammar on "Hello, world!" ends at 13 with value `["Hello,", "world!"]`: the space child adds no item |
| GrammarExamples.MultilineMatchesLater | src/index.ts:15-16 | with the `m` flag, `token(/b/m)` at 0 on "a\nb" succeeds with `[1, "b"]` although "b" is not at 0 |
| GrammarExamples.LineStartEngineWellFormed | src/index.ts:15 | an engine that lets `^` match after line breaks still meets the only assumption `Monotone` makes of the engine |
| JsStrings.LastIndexOf | src/error.ts:16-18 | `lastIndexOf` is -1 exactly when the needle occurs nowhere, and otherwise an occurrence with none after it |
| ParsingErrors.SortFirst | src/error.ts:15-21 | `sort()[0]` of non-negative numbers is one of them whose decimal string is least in string order |
| ParsingErrors.NonNegative | src/error.ts:20 | `filter(x => x >= 0)` keeps exactly the non-negative elements, each as many times as it occurs |
| ParsingErrorLaws.NonNegativeAppend | src/error.ts:20 | `filter` keeps the original order: filtering a concatenation concatenates the filtered parts |
| ParsingErrors.NewParsingError | src/error.ts:1-27 | `name` is the class name, `sourceName` defaults to "<anonymous>", supplied `index` and `line` are kept when both are given, and both are recomputed when either is missing |
| ParsingErrorLaws.BreakCountIsBreakEnds | src/error.ts:13 | the number of `/\r\n|\r|\n/g` matches equals the number of `\n`s plus the `\r`s not followed by `\n`: `\r\n` counts once |
| ParsingErrorLaws.NoBreaksIffZero | src/error.ts:13 | there is no line-break match exactly when the text holds no `\r` and no `\n` |
| ParsingErrorLaws.LineFromBreaksAfter | src/error.ts:13 | `line` is 1 when no break follows the offset, 0 when exactly one does, and one less than the number of breaks otherwise |
| ParsingErrorLaws.ColumnWithoutBreaks | src/error.ts:14-22 | with no `\r` or `\n` before the offset, `index` is 1 |
| ParsingErrorLaws.ColumnWithBreaks | src/error.ts:14-22 | otherwise `index` is 1 plus a non-negative `lastIndexOf` result whose decimal string is least in string order among them |
| ParsingErrorLaws.SortFirstUnique | src/error.ts:21 | that string-least element is unique, so the previous row determines `index` |
| ParsingErrorLaws.ColumnSortsAsStrings | src/error.ts:15-21 | a `\r\n` at positions 9-10 gives candidates 9, 9, 10 and `index` 11, because "10" sorts before "9" |
| ParsingErrorLaws.DefaultedError | src/error.ts:1-32 | `new ParsingError(11, "aaaaaaaaa\r\nb")` gets the class name, source name "<anonymous>", `line` 1 (no break follows the offset) and `index` 11, and renders as "ParsingError\n    at <anonymous>:1:11" |
| ParsingErrorLaws.RenderRoundTrip | src/error.ts:29-32 | `toString` starts with the name and "\n    at ", and the text between that and the last two colons reads back as `sourceName`, the numbers after them as `line` and `index` |
| ParsingErrorLaws.PositionReadBack | src/error.ts:31 | in `p:a:b` with numerals `a` and `b`, the last two colons are those before `a` and `b` whatever `p` holds, so `p`, `a` and `b` are all recovered |
| Decimal.NatToString | src/error.ts:31 | for the values the constructor computes (and any non-negative integer up to 2^53), the rendering of a number in the template string is a non-empty run of decimal digits in canonical form: "0" exactly for zero, otherwise no leading zero |
| Decimal.IntRoundTrip | src/error.ts:31 | rendering an integer and parsing it back gives the integer |

## Left out

- The regular-expression engine: `token(RegExp)` builds an anchored `RegExp` and calls `String.match` (src/index.ts:15). It is an oracle in the environment that receives the pattern's source, its flags and `s.slice(i)`, and returns elements 0 and 1 of the match array.
- CombinatorLaws.Monotone: it assumes of that oracle only that elements 0 and 1 of the match array are no longer than the input, which holds because they are substrings of it. It does not assume the match starts at the front of the input: with the `m` flag it need not.
- With the `g` and `m` flags together, `match` returns every line's match and element 1 is a second match rather than a group; the oracle returns whatever elements 0 and 1 are, so this case is covered, but no lemma describes it.
- Parser indices are natural numbers: negative or fractional indices, which `slice` and `startsWith` would reinterpret, are not modelled.
- Text outside the Basic Multilingual Plane: a Dafny `char` is a Unicode scalar value, while JavaScript strings count UTF-16 code units. The two agree on text whose characters all lie in the Basic Multilingual Plane; for a character written as a surrogate pair, `length`, `slice`, `startsWith` and `lastIndexOf` count two units where the model counts one, so `token`'s advance and `rawIndex` and `index` differ from the source there.
- There is no `undefined` value in the model, so `?? null` in `option` (src/index.ts:32) is the identity on values.
- The fallback `return null` of `token` for a pattern that is neither a string nor a `RegExp` (src/index.ts:18) is excluded by the `Parser` datatype, as it is by the TypeScript types.
- Deep `ref` recursion overflows the JavaScript stack, whether or not it consumes input (recursion without consumption always does; `sum` on a long "1+1+…+1" does too). The model bounds `ref` expansion by fuel instead: `OutOfFuel` replaces any recursion deeper than the fuel, and with enough fuel the model returns `Matched` where the source would overflow.
- Hand-written parser functions: `option`, `space`, `or`, `and` and `tree` accept any `(i, s) => …` function, which may return any index. The model's children are built from the combinators only, and `CombinatorLaws.Monotone` relies on that.
- `tree` builders and `ref` thunks are pure functions in the environment; builders that throw or have side effects are not modelled.
- The generic and conditional TypeScript types (src/index.ts:1-7, src/util.ts) have no run-time behaviour.
- `test/index.test.ts` uses `every`, `ignore`, `map` and `regex` with a `(s, i)` argument order and a `[value, index]` result, none of which exist in `src/index.ts`; it is not modelled.
- The output stated in the comment of `example/helloWorld.ts` is not what `token` returns; `GrammarExamples.SpaceContributesNothing` states the result the code gives.
- ParsingErrors.ToString: numbers are modelled as unbounded integers, so `ToString` and `Decimal.IntToString` agree with JavaScript's `toString` and `String(x)` only when `line` and `index` are at most 2^53 in magnitude. Above that JavaScript numbers are doubles that print rounded digits padded with zeros ("1152921504606847000" for 2^60), and from 10^21 on they print in exponent form ("1e+21"), which `RenderRoundTrip` would not read back. The constructor's computed `line` and `index` are bounded by the source length and stay in range; a caller-supplied pair reaches `toString` unchanged (src/error.ts:23-25) and is only faithful within that range.
- ParsingErrorLaws.RenderRoundTrip: the read-back holds for the model's integer rendering; for JavaScript it holds when `line` and `index` are at most 2^53 in magnitude, for the reason in the line above.
- `ParsingError` arguments are integers or `undefined`: an explicit `null` `sourceName` (which would render as "null") and non-integer `rawIndex`, `index` or `line` are not modelled. `name` is passed in as the class name (`ParsingErrors.ClassName` for the class itself), since `this.constructor.name` depends on the subclass used.
