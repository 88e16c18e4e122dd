# kparsec in Dafny

A model of kparsec, a Kotlin parser-combinator library, and of the small
libraries and example back end that ship with it.

- **The parsing engine.**
  - The input is a token sequence with a cursor.
  - A parse result is `Success(rest, value)`, `Failure(expected, location)` or `Error(expected, location)`.
  - A parser is a function from an input to a result.
  - The primitives cover succeed, fail, named, constant, token, the character classes and eof.
  - The combinators cover zip, sequence, choice, map, or, many, orElse, chain, lookahead and not.
  - The grammar contexts (`SimpleGrammarContext`, the packrat context) and the operator-table builder are modelled as classes over maps.
- **The literal decoders.** These cover digit classes, C/JSON escapes, the JSON-like string literal, radix integer literals and booleans.
- **The "wheels".**
  - Character and token sequence views, with their wrappers and `toString` loops.
  - The memoizing sequence, `String.escape` and the `LazyNamed` cache.
- **The TIP example back end.** This covers AST pretty-printing, the default transformer and visitor, the expression interpreter, the equality solver and union-find.

Each Kotlin parser class's `invoke` is a Dafny function of the input, and
its contract says what the parser returns. The lower-case factory
(`zip`, `many`, …) is the function that returns that parser as a function
value. Loops in the Kotlin code are methods with loop invariants, proved
against a specification function. Objects whose fields the Kotlin code
updates are classes with `modifies` clauses.

The equality solver is proved against unification. An assignment of
terms to variables solves an equation when it makes both sides the same
term. Each rule of `solve` keeps the solutions of the queue together with
the bindings, and a rule throws only on an equation with no solution.
`result` is most general: every solution of the input is an instance of
it. When no binding of the result mentions its own variable, the result
is itself a solution.

`Error` is the escalated failure of the packrat left-recursion sentinel.
Every combinator other than the packrat proxy treats it like a `Failure`:
it branches only on Success versus anything else. `named` rewrites
Failures only.

Where the code and its own documentation disagree, the model follows the
code. `OperatorTable.build` is one example. It walks the keys with
`sortedByDescending`, so the group with the highest priority key is applied
first. That group ends up innermost and binds tightest, and the tests
(`1+2*3`) agree.

## Model

| member | source | states |
|---|---|---|
| Results.ParseResult.Propagate | src/main/kotlin/ru/spbstu/kparsec/Result.kt:28-38 | a non-success keeps its kind, expectation and location when retyped |
| Results.Map | src/main/kotlin/ru/spbstu/kparsec/Result.kt:30-39 | `map` succeeds iff its argument did; a Success keeps `rest` and carries `f(result)`; a Failure comes back with the same expectation and location |
| Results.MapIdentity | src/main/kotlin/ru/spbstu/kparsec/Result.kt:36-39 | mapping the identity returns an equal result |
| Results.MapComposition | src/main/kotlin/ru/spbstu/kparsec/Result.kt:36-39 | mapping `f` then `g` equals mapping `g∘f` |
| Results.ProgressingIsWellBehaved | src/main/kotlin/ru/spbstu/kparsec/Result.kt:21 | a parser whose Successes always consume something never moves the cursor backward or off the tokens |
| Inputs.Location.Advance | src/main/kotlin/ru/spbstu/kparsec/Input.kt:38-43 | advancing a location keeps the source name |
| Inputs.AdvanceAllSnoc | src/main/kotlin/ru/spbstu/kparsec/Input.kt:38-43 | advancing over `s + [c]` is advancing over `s`, then over `c` |
| Inputs.NewlinesSnoc | src/main/kotlin/ru/spbstu/kparsec/Input.kt:38-43 | the newline count of `s + [c]` adds one exactly when `c` is a newline |
| Inputs.AdvanceAllCounts | src/main/kotlin/ru/spbstu/kparsec/Input.kt:38-43 | over any string, the line grows by the number of newlines; the column is the old column plus the length when there is no newline, otherwise the length of the text after the last newline; the source name never changes |
| Inputs.Input.Source | src/main/kotlin/ru/spbstu/kparsec/Input.kt:66 | the source of an input within its tokens is the suffix from `offset`, with `|tokens| - offset` tokens |
| Inputs.Input.Loc | src/main/kotlin/ru/spbstu/kparsec/Input.kt:67 | a string input's location is `("<string>", 0, offset)` |
| Inputs.Input.Next | src/main/kotlin/ru/spbstu/kparsec/Input.kt:69 | `next` keeps the tokens and moves the offset by exactly one |
| Inputs.Input.Drop | src/main/kotlin/ru/spbstu/kparsec/Input.kt:70 | `StringInput.drop(n)` keeps the tokens and moves the offset by exactly `n`, without clamping |
| Inputs.DefaultDrop | src/main/kotlin/ru/spbstu/kparsec/Input.kt:51-58 | the default `drop` loop stops at the end of the tokens: the offset becomes `min(offset + n, |tokens|)` and the tokens are unchanged |
| Inputs.DefaultDropIdentities | src/main/kotlin/ru/spbstu/kparsec/Input.kt:51-58 | the default `drop` on an exhausted input, and `drop(0)` on any input, return that input |
| Inputs.StringDropAgrees | src/main/kotlin/ru/spbstu/kparsec/Input.kt:70 | `StringInput.drop` agrees with the default `drop`, and stays valid, exactly when `offset + n` is within the string |
| Inputs.SubSequence.Length | src/main/kotlin/ru/spbstu/kparsec/Input.kt:29-30 | a view's length `to - from` is the number of characters it shows |
| Inputs.SubSequence.Get | src/main/kotlin/ru/spbstu/kparsec/Input.kt:32 | `get(i)` reads `seq[from + i]`, the `i`-th character the view shows |
| Inputs.SubSequence.SubView | src/main/kotlin/ru/spbstu/kparsec/Input.kt:34-35 | the corrected `subSequence` shows exactly characters `startIndex..endIndex` of the view |
| Inputs.SubSequenceAsWrittenWrongEnd | src/main/kotlin/ru/spbstu/kparsec/Input.kt:34-35 | `subSequence(1, 3)` of a view of "Hello" shows "e" as written, where "el" is meant |
| Basic.SuccessParser | src/main/kotlin/ru/spbstu/kparsec/parsers/Basic.kt:9-13 | `success(v)` succeeds on every input with `v`, consuming nothing |
| Basic.ErrorParser | src/main/kotlin/ru/spbstu/kparsec/parsers/Basic.kt:15-19 | `fail(msg)` is always `Failure(msg, input.location)` |
| Basic.NamedParser | src/main/kotlin/ru/spbstu/kparsec/parsers/Basic.kt:21-31 | `named` passes Successes (and Errors) unchanged; a Failure keeps its location and expects the name |
| Basic.ConstantParser | src/main/kotlin/ru/spbstu/kparsec/parsers/Basic.kt:33-42 | `constant(c)` succeeds iff the source starts with `c`, returning `c` and consuming `|c|`; otherwise it fails with the quoted constant at the current location |
| Basic.ConstantSplitsSource | src/main/kotlin/ru/spbstu/kparsec/parsers/Basic.kt:36 | after a successful constant, the old source is `c` followed by the new source |
| Basic.TokenParser | src/main/kotlin/ru/spbstu/kparsec/parsers/Basic.kt:57-65 | a token parser succeeds iff a first token exists and passes the test; it returns that token and consumes exactly one; otherwise it fails with its description |
| Basic.TokenExamples | src/test/kotlin/ru/spbstu/kparsec/BasicTest.kt:65-89 | `range(3..8)` accepts 4 and rejects 9, `oneOf("01234")` accepts '4' and rejects '9', `char` and `token` accept only their own token |
| Basic.EofParser | src/main/kotlin/ru/spbstu/kparsec/parsers/Basic.kt:80-87 | `eof` succeeds with unit and consumes nothing iff the source is empty; otherwise it fails with "<EOF>" |
| Basic.PrimitivesWellBehaved | src/main/kotlin/ru/spbstu/kparsec/parsers/Basic.kt:9-87 | success, fail and eof never move the cursor backward; every token parser consumes exactly one token when it succeeds |
| Basic.ConstantWellBehaved | src/main/kotlin/ru/spbstu/kparsec/parsers/Basic.kt:33-40 | a constant never moves the cursor backward, and a non-empty one always consumes |
| Basic.NamedWellBehaved | src/main/kotlin/ru/spbstu/kparsec/parsers/Basic.kt:21-31 | `named` preserves both of those properties of its inner parser |
| Combinators.ZipParser | src/main/kotlin/ru/spbstu/kparsec/parsers/Combinators.kt:79-95 | `zip` succeeds iff `lhv` succeeds and `rhv` then succeeds on its rest; the value is `f` of both values and the rest is `rhv`'s; otherwise the first non-success is returned unchanged |
| Combinators.ZipWellBehaved | src/main/kotlin/ru/spbstu/kparsec/parsers/Combinators.kt:79-95 | zipping parsers that never move backward gives one that never moves backward; it consumes whenever either part does |
| Combinators.PlusShapes | src/main/kotlin/ru/spbstu/kparsec/parsers/Dsl.kt:8-31 | each `plus` overload on two successes: Any+Any gives both values as a list, Collection+element appends, element+Collection prepends, Collection+Collection concatenates, Unit drops its side; the rest is always the right operand's |
| Combinators.PrependAll | src/main/kotlin/ru/spbstu/kparsec/parsers/Combinators.kt:111 | prepending collected values keeps success, rest and any non-success, and puts the values in front |
| Combinators.SequenceParser | src/main/kotlin/ru/spbstu/kparsec/parsers/Combinators.kt:97-121 | a successful sequence has exactly one value per element parser |
| Combinators.RunSequenceAsWritten | src/main/kotlin/ru/spbstu/kparsec/parsers/Combinators.kt:100-120 | the loop of `SeqParser.invoke`, as written, computes the as-written sequence function |
| Combinators.SequenceStepsDropsLast | src/main/kotlin/ru/spbstu/kparsec/parsers/Combinators.kt:104-119 | from any point of the loop, the as-written iteration gives the intended result with the last value missing from the list |
| Combinators.SequenceAsWrittenDropsLast | src/main/kotlin/ru/spbstu/kparsec/parsers/Combinators.kt:97-121 | `SeqParser` as written succeeds exactly when the intended sequence does, with the same rest and the same non-success, but its list lacks the last element's value |
| Combinators.SequenceAsWrittenLosesValue | src/main/kotlin/ru/spbstu/kparsec/parsers/Combinators.kt:104-119 | `sequence(success(1), success(2))` as written yields `[1]`, where `[1, 2]` is meant |
| Combinators.RunSequence | src/main/kotlin/ru/spbstu/kparsec/parsers/Combinators.kt:100-120 | the corrected loop, collecting every value, computes the intended sequence: no parsers give an empty Success, otherwise each element runs on the previous rest and the first non-success is returned |
| Combinators.ChoiceParser | src/main/kotlin/ru/spbstu/kparsec/parsers/Combinators.kt:125-143 | an empty choice fails with "<empty choice>"; otherwise the result is some alternative's result on the original input; a Success is the first succeeding alternative's, after only Failures; when all fail the last Failure is the result |
| Combinators.RunChoice | src/main/kotlin/ru/spbstu/kparsec/parsers/Combinators.kt:128-142 | the loop of `ChoiceParser.invoke` computes the choice function |
| Combinators.ChoiceSingleCandidate | src/main/kotlin/ru/spbstu/kparsec/parsers/Combinators.kt:128-142 | when every alternative but one fails, the choice gives that one's result, and fails when it fails |
| Combinators.OrParser | src/main/kotlin/ru/spbstu/kparsec/parsers/Combinators.kt:159-175 | `or` returns the left result unless it is a Failure, and otherwise the right parser's result on the original input |
| Combinators.OrIsChoice | src/main/kotlin/ru/spbstu/kparsec/parsers/Combinators.kt:159-175 | `a or b` equals the two-element choice `oneOf(a, b)` on every input |
| Combinators.OrLaws | src/main/kotlin/ru/spbstu/kparsec/parsers/Combinators.kt:159-175 | `or` is associative and `fail` is its left unit |
| Combinators.MapParser | src/main/kotlin/ru/spbstu/kparsec/parsers/Combinators.kt:147-157 | `map` succeeds iff the inner parser does, with the same rest and `f` of its value; a non-success passes unchanged |
| Combinators.MapParserFuses | src/main/kotlin/ru/spbstu/kparsec/parsers/Combinators.kt:147-157 | mapping a parser twice equals mapping it once with the composition |
| Combinators.MapWellBehaved | src/main/kotlin/ru/spbstu/kparsec/parsers/Combinators.kt:147-157 | `map` keeps the cursor discipline and the progress of its parser |
| Combinators.AltParser | src/main/kotlin/ru/spbstu/kparsec/parsers/Combinators.kt:194-205 | `orElse`/`orNot` turn a Failure into the default with the original input as rest; any other result passes; without an Error they never fail |
| Combinators.OrElseIsOrSuccess | src/main/kotlin/ru/spbstu/kparsec/parsers/Combinators.kt:194-205 | `p orElse d` equals `p or success(d)` on every input |
| Combinators.ManyParser | src/main/kotlin/ru/spbstu/kparsec/parsers/Combinators.kt:207-219 | `many` always succeeds, never moves backward, consumes iff it collects something, collects at most one value per consumed token, and stops where the element no longer succeeds with progress |
| Combinators.RunMany | src/main/kotlin/ru/spbstu/kparsec/parsers/Combinators.kt:208-218 | the loop of `ManyParser.invoke`, for an element that always consumes, computes `many` |
| Combinators.ManyCollectsSuccesses | src/main/kotlin/ru/spbstu/kparsec/parsers/Combinators.kt:212-216 | the values of `many` are the element's value at the input followed by the values of `many` on its rest |
| Combinators.ManyIsMaximal | src/main/kotlin/ru/spbstu/kparsec/parsers/Combinators.kt:212-217 | `many` applied where it stopped matches nothing more and consumes nothing |
| Combinators.ManyOneIsNonEmptyMany | src/main/kotlin/ru/spbstu/kparsec/parsers/Combinators.kt:222 | `manyOne` of a consuming element succeeds exactly when the element does, with the element's value in front of `many`'s; it fails with the element's failure otherwise |
| Combinators.ManyWellBehaved | src/main/kotlin/ru/spbstu/kparsec/parsers/Combinators.kt:207-219 | `many` never moves the cursor backward |
| Combinators.JoinedByShape | src/main/kotlin/ru/spbstu/kparsec/parsers/Combinators.kt:224-228 | both `joinedBy`s succeed exactly when the first element does; with a unit separator the list is the first value then each later element's value; with a uniform separator it is `1 + 2k` long for `k` separated elements |
| Combinators.FlattenPairs | src/main/kotlin/ru/spbstu/kparsec/parsers/Combinators.kt:227-228 | every value `many(sep + p)` collects is a pair, so flattening them doubles the count |
| Combinators.ChainParser | src/main/kotlin/ru/spbstu/kparsec/parsers/Combinators.kt:230-241 | `chain` runs `next(value)` on the base's rest when the base succeeds, and returns the base's non-success otherwise |
| Combinators.ChainMonadLaws | src/main/kotlin/ru/spbstu/kparsec/parsers/Combinators.kt:230-241 | `chain` and `success` satisfy the two unit laws and associativity |
| Combinators.ZipIsChain | src/main/kotlin/ru/spbstu/kparsec/parsers/Combinators.kt:79-95 | `zip(l, r, f)` equals `l.chain { a -> r.map { b -> f(a, b) } }` |
| Combinators.IgnoreKeepsConsumption | src/main/kotlin/ru/spbstu/kparsec/parsers/Dsl.kt:35 | unary minus succeeds exactly when its parser does, with the same rest and the unit value, and keeps any non-success |
| Lookahead.LookaheadParser | src/main/kotlin/ru/spbstu/kparsec/parsers/Lookahead.kt:8-16 | `lookahead(p)` succeeds iff `p` does, with `p`'s value and the original input as rest; a non-success passes unchanged |
| Lookahead.NotParser | src/main/kotlin/ru/spbstu/kparsec/parsers/Lookahead.kt:29-37 | `not(p)` succeeds with the original input exactly when `p` fails; when `p` succeeds it fails expecting `not(p)` |
| Lookahead.FollowedByConsumesOnlyFirst | src/main/kotlin/ru/spbstu/kparsec/parsers/Lookahead.kt:23 | `a followedBy b` succeeds iff `a` succeeds and `b` succeeds after it, and then is exactly `a`'s result; `a notFollowedBy b` succeeds iff `a` succeeds and `b` fails after it, again with `a`'s result |
| Lookahead.NotNot | src/main/kotlin/ru/spbstu/kparsec/parsers/Lookahead.kt:29-42 | `not(not(p))` succeeds exactly when `p` does and consumes nothing |
| Lookahead.LookaheadNeverConsumes | src/main/kotlin/ru/spbstu/kparsec/parsers/Lookahead.kt:5-42 | neither `lookahead` nor `not` ever consumes input |
| Dsl.ProxyParser.Description | src/main/kotlin/ru/spbstu/kparsec/parsers/Dsl.kt:56 | a proxy's description is its non-terminal's name |
| Dsl.SimpleGrammarContext.constructor | src/main/kotlin/ru/spbstu/kparsec/parsers/Dsl.kt:52-53 | a new context binds no names |
| Dsl.SimpleGrammarContext.Get | src/main/kotlin/ru/spbstu/kparsec/parsers/Dsl.kt:62 | `get` gives a proxy described by the name, whether or not it is bound |
| Dsl.SimpleGrammarContext.Set | src/main/kotlin/ru/spbstu/kparsec/parsers/Dsl.kt:64-66 | `set` binds the name to the parser, replacing an earlier binding and leaving every other name as it was |
| Dsl.SimpleGrammarContext.Invoke | src/main/kotlin/ru/spbstu/kparsec/parsers/Dsl.kt:57-59 | invoking a proxy returns the bound parser's result iff its name is bound at the time of the call, and otherwise throws "Uninitialized non-terminal: name" |
| Dsl.ForwardReference | src/main/kotlin/ru/spbstu/kparsec/parsers/Dsl.kt:55-66 | a proxy taken before its name is bound throws when invoked then, runs the binding made later, and after a second `set` runs the last binding |
| Packrat.PackratGrammarContext.constructor | src/main/kotlin/ru/spbstu/kparsec/parsers/Packrat.kt:5-6 | a new context binds no names |
| Packrat.PackratGrammarContext.Set | src/main/kotlin/ru/spbstu/kparsec/parsers/Packrat.kt:27-29 | `set` binds the name to the rule, the last binding winning |
| Packrat.PackratGrammarContext.Get | src/main/kotlin/ru/spbstu/kparsec/parsers/Packrat.kt:25 | every `get` makes a new proxy for the name, with an empty table |
| Packrat.PackratProxyParser.constructor | src/main/kotlin/ru/spbstu/kparsec/parsers/Packrat.kt:8-9 | a proxy starts with its name, its context and no cached results |
| Packrat.PackratProxyParser.Description | src/main/kotlin/ru/spbstu/kparsec/parsers/Packrat.kt:11 | a proxy's description is its non-terminal's name |
| Packrat.PackratProxyParser.Invoke | src/main/kotlin/ru/spbstu/kparsec/parsers/Packrat.kt:12-22 | a cached location returns the cached result and changes nothing; otherwise the sentinel "Left recursion detected" is stored, an unbound name throws leaving it behind, a plain rule's result replaces it, and a left-recursive rule meets the sentinel and returns it |
| Packrat.CacheIgnoresInput | src/main/kotlin/ru/spbstu/kparsec/parsers/Packrat.kt:13 | the table is keyed by location only: a second call on another input at the same location returns the first call's result |
| Packrat.LeftRecursionReported | src/main/kotlin/ru/spbstu/kparsec/parsers/Packrat.kt:13-21 | `expr = expr + suffix` on "2:::" reports left recursion at the start of the input |
| Packrat.UnboundLeavesSentinel | src/main/kotlin/ru/spbstu/kparsec/parsers/Packrat.kt:15-18 | invoking an unbound name throws, and the sentinel stays cached at that location |
| OperatorTable.Assoc.Ordinal | src/main/kotlin/ru/spbstu/kparsec/parsers/OperatorTable.kt:8 | the enum positions: LEFT is 0, RIGHT 1, NONE 2 |
| OperatorTable.CompareInts | src/main/kotlin/ru/spbstu/kparsec/parsers/OperatorTable.kt:12 | Int.compareTo is zero exactly on equal priorities and positive exactly when the first is larger |
| OperatorTable.CompareToIsTotalOrder | src/main/kotlin/ru/spbstu/kparsec/parsers/OperatorTable.kt:10-16 | `SortedKey.compareTo` is zero only on equal keys and orders keys totally and transitively, by priority first and then by the associativity's enum position |
| OperatorTable.EntryParser | src/main/kotlin/ru/spbstu/kparsec/parsers/OperatorTable.kt:18-24 | an entry succeeds iff its operator parser does, with the same rest and the function `(a, b) -> mapping(a, op, b)`; a non-success passes unchanged |
| OperatorTable.FoldLeftSnoc | src/main/kotlin/ru/spbstu/kparsec/parsers/OperatorTable.kt:51-53 | the left fold applies the last operator outermost, so a LEFT level groups to the left |
| OperatorTable.FoldRightSnoc | src/main/kotlin/ru/spbstu/kparsec/parsers/OperatorTable.kt:54-56 | the right fold applies the last operator innermost, so a RIGHT level groups to the right |
| OperatorTable.AssociativityExample | src/main/kotlin/ru/spbstu/kparsec/parsers/OperatorTable.kt:50-56 | with `a ~- b = b - a`, `10 ~- 10 ~- 20` is 0 grouped to the right and 20 grouped to the left |
| OperatorTable.LeftLevelShape | src/main/kotlin/ru/spbstu/kparsec/parsers/OperatorTable.kt:51-53 | a LEFT level succeeds iff its element does, and folds every `op element` pair collected after it onto the first value |
| OperatorTable.RightLevelShape | src/main/kotlin/ru/spbstu/kparsec/parsers/OperatorTable.kt:54-56 | a RIGHT level succeeds iff the last element succeeds after the collected `element op` pairs, and folds them onto it |
| OperatorTable.Levels | src/main/kotlin/ru/spbstu/kparsec/parsers/OperatorTable.kt:48-60 | the layered parser throws "An operation is not implemented." exactly when some level is NONE, and with no levels it is the base |
| OperatorTable.Insert | src/main/kotlin/ru/spbstu/kparsec/parsers/OperatorTable.kt:47 | inserting a key into a descending order keeps it descending and adds exactly that key |
| OperatorTable.SortDescending | src/main/kotlin/ru/spbstu/kparsec/parsers/OperatorTable.kt:47 | `sortedByDescending` gives every key of the table once, in strictly descending `compareTo` order |
| OperatorTable.SortedDescendingUnique | src/main/kotlin/ru/spbstu/kparsec/parsers/OperatorTable.kt:47 | two descending orders of the same keys are equal, so the build order is determined by the keys |
| OperatorTable.OperatorTableContext.constructor | src/main/kotlin/ru/spbstu/kparsec/parsers/OperatorTable.kt:26-27 | a new context has its base and an empty table |
| OperatorTable.OperatorTableContext.Register | src/main/kotlin/ru/spbstu/kparsec/parsers/OperatorTable.kt:32-36 | registering an operator appends its entry to the list of its (priority, assoc) level, creating the level when missing, and leaves other levels unchanged |
| OperatorTable.OperatorTableContext.RegisterBinary | src/main/kotlin/ru/spbstu/kparsec/parsers/OperatorTable.kt:38-42 | a binary registration appends an entry whose mapping ignores the operator's value |
| OperatorTable.OperatorTableContext.Build | src/main/kotlin/ru/spbstu/kparsec/parsers/OperatorTable.kt:44-61 | `build` visits every level in descending order and its result is the layered parser of those levels around the base |
| OperatorTable.HigherPriorityIsInner | src/main/kotlin/ru/spbstu/kparsec/parsers/OperatorTable.kt:44-61 | with `*` at priority 4 and `+` at 2, the `*` level is built first and sits inside the `+` level |
| OperatorTable.RightBeforeLeftAtSamePriority | src/main/kotlin/ru/spbstu/kparsec/parsers/OperatorTable.kt:10-16 | at equal priority RIGHT sorts above LEFT and NONE above RIGHT |
| Literals.DigitValue | src/main/kotlin/ru/spbstu/kparsec/parsers/Literals.kt:65-68 | digit values lie below 16; a hexadecimal digit is below 10 exactly when decimal and below 8 exactly when octal |
| Literals.DigitValueInverse | src/main/kotlin/ru/spbstu/kparsec/parsers/Literals.kt:65-68 | digit values and lower-case digits are inverse, and both cases of a letter digit have one value |
| Literals.DigitParsersRead | src/main/kotlin/ru/spbstu/kparsec/parsers/Literals.kt:65-68 | `OCT_DIGIT`, `DEC_DIGIT` and `HEX_DIGIT` succeed exactly on a first character of their class, with its value, consuming it, and fail otherwise |
| Literals.RepeatReadsDigits | src/main/kotlin/ru/spbstu/kparsec/parsers/Literals.kt:79-83 | repeating a digit reader between `lo` and `hi` times reads the longest run of its class up to `hi` digits, and succeeds exactly when that run has at least `lo` digits |
| Literals.LookingAtIsLongestMatch | src/main/kotlin/ru/spbstu/kparsec/parsers/Basic.kt:44-52 | the match that greedy `lookingAt` reports for a digit-class expression is the longest prefix in the expression's language, and when there is none no prefix is in it |
| Literals.RegexParser | src/main/kotlin/ru/spbstu/kparsec/parsers/Basic.kt:44-52 | a regular-expression parser succeeds exactly when `lookingAt` matches, returning the matched text, in the language, and the input after it; otherwise it fails with "regex <expression>" at the input's location |
| Literals.SpacesParser | src/main/kotlin/ru/spbstu/kparsec/parsers/Literals.kt:12 | `SPACES` always succeeds, reading exactly the run of whitespace at the start of the input |
| Literals.LexemeReads | src/main/kotlin/ru/spbstu/kparsec/parsers/Literals.kt:14-25 | a lexeme succeeds exactly when its inner parser does after the leading whitespace, with the inner value, and skips the whitespace after it |
| Literals.IntegerLiteralReads | src/main/kotlin/ru/spbstu/kparsec/parsers/Literals.kt:35-59 | each integer literal takes the longest match of its expression and reads it in its radix (after `0x` for the C hexadecimal), and otherwise fails under its name at the input's location |
| Literals.CIntegerChoosesForm | src/main/kotlin/ru/spbstu/kparsec/parsers/Literals.kt:63 | `CINTEGER` is hexadecimal when a `0x` form matches, else octal when a leading `0` matches, else decimal, and fails as "Decimal" when none does |
| Literals.DecimalReadsRendering | src/main/kotlin/ru/spbstu/kparsec/parsers/Literals.kt:35-36 | `DECIMAL` reads the decimal rendering of every natural number back, in full |
| Literals.BooleanLiteralReads | src/main/kotlin/ru/spbstu/kparsec/parsers/Literals.kt:50-51 | `BOOLEAN` succeeds exactly on an input starting with `true` or `false`, with that value, consuming that word only, and otherwise fails as "Boolean" |
| Literals.ToChar | src/main/kotlin/ru/spbstu/kparsec/parsers/Literals.kt:79-90 | `toChar()` keeps the low 16 bits and leaves code units unchanged |
| Literals.DecodeEscapeSelected | src/main/kotlin/ru/spbstu/kparsec/parsers/Literals.kt:69-92 | the first alternative of `escaped` that matches is the one the character after the backslash selects |
| Literals.DecodeEscapeBounded | src/main/kotlin/ru/spbstu/kparsec/parsers/Literals.kt:79-90 | every escape reads a code unit below 0x10000 |
| Literals.EscapeAlternativesExclusive | src/main/kotlin/ru/spbstu/kparsec/parsers/Literals.kt:70-92 | of the alternatives of `escaped`, all but the one the first character selects fail |
| Literals.HexEscapeDecodes | src/main/kotlin/ru/spbstu/kparsec/parsers/Literals.kt:79 | `\x` reads exactly two hexadecimal digits as `b + 16 * a` |
| Literals.UnicodeEscapeDecodes | src/main/kotlin/ru/spbstu/kparsec/parsers/Literals.kt:80-82 | `\u` reads exactly four hexadecimal digits by Horner's rule in radix 16 |
| Literals.OctalEscapeDecodes | src/main/kotlin/ru/spbstu/kparsec/parsers/Literals.kt:83-91 | an octal escape reads the longest run of one to three octal digits, folded in radix 8 |
| Literals.SimpleEscapeDecodes | src/main/kotlin/ru/spbstu/kparsec/parsers/Literals.kt:71-78 | `\b \f \n \r \t \' \" \\` read the characters they name, consuming one character |
| Literals.EscapedDecodes | src/main/kotlin/ru/spbstu/kparsec/parsers/Literals.kt:69-92 | `escaped` succeeds exactly on a backslash followed by a well-formed escape, with that escape's code unit, consuming both, and fails otherwise |
| Literals.StringElementReads | src/main/kotlin/ru/spbstu/kparsec/parsers/Literals.kt:100 | a body element is the escape after a backslash, nothing at a quote, and otherwise the character itself |
| Literals.DecodeBodyEndsAtQuote | src/main/kotlin/ru/spbstu/kparsec/parsers/Literals.kt:98-101 | a body read from a position ends at a quote that is not part of an escape |
| Literals.ManyElementsReadBody | src/main/kotlin/ru/spbstu/kparsec/parsers/Literals.kt:100 | `many` over the body elements stops exactly where the directly read body ends, with the body's code units |
| Literals.JStringReads | src/main/kotlin/ru/spbstu/kparsec/parsers/Literals.kt:98-101 | `JSTRING` succeeds exactly on a quote followed by a well-formed body and a closing quote, with the body's code units, consuming through the closing quote; otherwise it fails as "J String" |
| Literals.DecodeEncodedBody | src/main/kotlin/ru/spbstu/kparsec/parsers/Literals.kt:98-101 | reading a body written with quotes and backslashes escaped gives the string back and stops at its closing quote |
| Literals.JStringRoundTrip | src/main/kotlin/ru/spbstu/kparsec/parsers/Literals.kt:98-101 | `JSTRING` reads back any string written as a literal with `"` and `\` escaped by a backslash, whatever follows it |
| Sequences.CharSeq.Contents | src/main/kotlin/ru/spbstu/kparsec/wheels/AbstractCharSequence.kt:3-10 | a valid char sequence shows exactly `length` characters |
| Sequences.CharGetReadsContents | src/main/kotlin/ru/spbstu/kparsec/wheels/AbstractCharSequence.kt:3-10 | a valid char sequence reads its contents at every index below its length |
| Sequences.ListGetReadsContents | src/main/kotlin/ru/spbstu/kparsec/wheels/AbstractCharSequence.kt:50-55 | a valid char list reads its contents at every index below its size |
| Sequences.TokenGetReadsContents | src/main/kotlin/ru/spbstu/kparsec/wheels/TokenSequence.kt:9-16 | a valid token sequence reads its contents at every index below its length |
| Sequences.CharSubGetOutside | src/main/kotlin/ru/spbstu/kparsec/wheels/AbstractCharSequence.kt:7-10 | a view's `get` throws at every index outside `0 until length`, whatever it views |
| Sequences.CharSubSequenceSlices | src/main/kotlin/ru/spbstu/kparsec/wheels/AbstractCharSequence.kt:12-15 | `subSequence` of a valid char sequence within its bounds returns a valid view of exactly that slice, and a view answers with a view over its own underlying sequence |
| Sequences.TokenSubSequenceSlices | src/main/kotlin/ru/spbstu/kparsec/wheels/TokenSequence.kt:18-21 | `subSequence` of a valid token sequence within its bounds returns a valid view of exactly that slice |
| Sequences.CharSubSequenceChecksOnlyEnd | src/main/kotlin/ru/spbstu/kparsec/wheels/AbstractCharSequence.kt:12-15 | a view's `subSequence` checks only the end index, so a negative start gets through |
| Sequences.SubListIsFlat | src/main/kotlin/ru/spbstu/kparsec/wheels/AbstractCharSequence.kt:21-24 | `CharSequenceAsList.subList` never builds a view of a view |
| Sequences.AsTokenSequenceKeepsReads | src/main/kotlin/ru/spbstu/kparsec/wheels/TokenSequence.kt:40-57 | shown as tokens, a char sequence keeps its length, every read and its contents |
| Sequences.AsCharSequenceKeepsReads | src/main/kotlin/ru/spbstu/kparsec/wheels/TokenSequence.kt:47-62 | shown as chars, a token sequence keeps its length, every read and its contents |
| Sequences.CharTokenRoundTrip | src/main/kotlin/ru/spbstu/kparsec/wheels/TokenSequence.kt:54-62 | char sequence to tokens and back gives the very sequence, exactly unless it is a char wrapper around a token wrapper |
| Sequences.TokenCharRoundTrip | src/main/kotlin/ru/spbstu/kparsec/wheels/TokenSequence.kt:54-62 | token sequence to chars and back gives the very sequence, exactly unless it is a token wrapper around a char wrapper |
| Sequences.NotInsideItself | src/main/kotlin/ru/spbstu/kparsec/wheels/TokenSequence.kt:54-62 | no sequence is found inside two wrappers around itself, so the round trips' exceptions are real wrappers |
| Sequences.CharListRoundTrip | src/main/kotlin/ru/spbstu/kparsec/wheels/AbstractCharSequence.kt:45-60 | char sequence to list and back gives the very sequence, exactly unless it is a char wrapper around a list wrapper |
| Sequences.ListCharRoundTrip | src/main/kotlin/ru/spbstu/kparsec/wheels/AbstractCharSequence.kt:45-60 | list to char sequence and back gives the very list, exactly unless it is a list wrapper around a char wrapper |
| Sequences.ListViewsKeepReads | src/main/kotlin/ru/spbstu/kparsec/wheels/AbstractCharSequence.kt:39-60 | the list view of a char sequence and the char view of a list keep the size and every read |
| Sequences.ListAsTokens | src/main/kotlin/ru/spbstu/kparsec/wheels/TokenSequence.kt:64-71 | a list shown as tokens has the list's size and reads |
| Sequences.ToCharSequenceReads | src/main/kotlin/ru/spbstu/kparsec/wheels/TokenSequence.kt:73-93 | a lazily read sequence claims length `Int.MAX_VALUE` and reads its elements, then the fill character at every later index |
| Sequences.CharToString | src/main/kotlin/ru/spbstu/kparsec/wheels/AbstractCharSequence.kt:30-36 | `toString` returns iff every read below the length returns, and then holds exactly those characters; for a valid sequence it is the contents |
| Sequences.TokenToString | src/main/kotlin/ru/spbstu/kparsec/wheels/TokenSequence.kt:31-37 | the same for token sequences |
| Sequences.HelloSlice | src/main/kotlin/ru/spbstu/kparsec/wheels/AbstractCharSequence.kt:3-36 | `CharSubSequence("Hello", 1, 3).toString()` is "el" |
| Sequences.CharSubGetReadsPastEnd | src/main/kotlin/ru/spbstu/kparsec/wheels/AbstractCharSequence.kt:7-10 | the check `index !in 0..length` as written lets the view "el" of "Hello" read index 2, its length, as 'l', where the corrected view throws |
| Sequences.TokenSubGetReadsPastEnd | src/main/kotlin/ru/spbstu/kparsec/wheels/TokenSequence.kt:13-16 | the same for token views |
| Sequences.SubGetAgreesBelowLength | src/main/kotlin/ru/spbstu/kparsec/wheels/TokenSequence.kt:13-16 | at every index other than the length, the check as written and the corrected one agree |
| Sequences.StringAsList.Get | src/main/kotlin/ru/spbstu/kparsec/Input.kt:3-7 | `StringAsList.get` returns exactly at the indices below the size, with the sequence's character |
| Sequences.CommaJoined | src/main/kotlin/ru/spbstu/kparsec/Input.kt:13 | the characters joined with ", ": each character at position 3i, preceded by ", " after the first |
| Sequences.ListAsCharseq.Get | src/main/kotlin/ru/spbstu/kparsec/Input.kt:18-19 | `ListAsCharseq.get` returns exactly at the indices below the length, with the list's character |
| Sequences.ListAsCharseq.SubSequence | src/main/kotlin/ru/spbstu/kparsec/Input.kt:20-21 | `subSequence` returns exactly for ordered bounds within the length, a sequence reading those characters |
| Sequences.InputWrappersKeepCharacters | src/main/kotlin/ru/spbstu/kparsec/Input.kt:3-26 | a string shown as a list and then as a char sequence keeps its length and every read, and prints as the string |
| Sequences.StringAsListShowsCharacters | src/main/kotlin/ru/spbstu/kparsec/Input.kt:13 | a string shown as a list prints as its characters in brackets, three characters apart |
| Memoized.MemoizedSequence.constructor | src/main/kotlin/ru/spbstu/kparsec/wheels/MemoizedSequence.kt:5-32 | a memoized sequence starts from the given iterator and storage |
| Memoized.MemoizedSequence.Step | src/main/kotlin/ru/spbstu/kparsec/wheels/MemoizedSequence.kt:8 | `step` moves the input's next element to the end of the storage, the whole sequence unchanged |
| Memoized.MemoizedSequence.ForceEverything | src/main/kotlin/ru/spbstu/kparsec/wheels/MemoizedSequence.kt:9 | `forceEverything` leaves the whole sequence in storage and the input finished |
| Memoized.TheIterator.constructor | src/main/kotlin/ru/spbstu/kparsec/wheels/MemoizedSequence.kt:11-28 | a new traversal starts at position 0 |
| Memoized.TheIterator.Next | src/main/kotlin/ru/spbstu/kparsec/wheels/MemoizedSequence.kt:20-25 | `next` reads the stored element at the position, or steps one in from the input, then moves on; with nothing left it throws, and the whole sequence never changes |
| Memoized.Take | src/main/kotlin/ru/spbstu/kparsec/wheels/MemoizedSequence.kt:11-28 | taking k elements through a new iterator reads the first k elements of the sequence, and the storage grows to k when it held fewer |
| Memoized.TraverseTwice | src/main/kotlin/ru/spbstu/kparsec/wheels/MemoizedSequence.kt:5-31 | two traversals read the same elements, and the second stores nothing new |
| Escapes.EscapeChar | src/main/kotlin/ru/spbstu/kparsec/wheels/StringEscape.kt:3-9 | the six rewritten characters become a backslash and one more character; every other character stays |
| Escapes.ReplaceConcat | src/main/kotlin/ru/spbstu/kparsec/wheels/StringEscape.kt:3-9 | `replace` of a single character distributes over concatenation |
| Escapes.EscapeConcat | src/main/kotlin/ru/spbstu/kparsec/wheels/StringEscape.kt:3-9 | the chain of six replacements distributes over concatenation |
| Escapes.EscapeIsPerCharacter | src/main/kotlin/ru/spbstu/kparsec/wheels/StringEscape.kt:3-9 | the chain of replacements equals escaping each character on its own: no `replace` rewrites what an earlier one wrote |
| Escapes.EscapeKeepsPlainText | src/main/kotlin/ru/spbstu/kparsec/wheels/StringEscape.kt:3-9 | a string with none of the six characters is returned unchanged |
| Escapes.EscapeLength | src/main/kotlin/ru/spbstu/kparsec/wheels/StringEscape.kt:3-9 | the result is one character longer for each rewritten character |
| Escapes.EscapeHasNoControls | src/main/kotlin/ru/spbstu/kparsec/wheels/StringEscape.kt:3-9 | the result holds no raw line feed, carriage return, backspace or tab |
| Escapes.EscapeIsNotInjective | src/main/kotlin/ru/spbstu/kparsec/wheels/StringEscape.kt:3-9 | the backslash is not escaped, so a backslash followed by `n` and a line feed escape alike |
| KotlinExample.LazyNamed.constructor | src/main/kotlin/ru/spbstu/kparsec/examples/KotlinParser.kt:22-40 | a new delegate holds its generator and no rule |
| KotlinExample.LazyNamed.GetValue | src/main/kotlin/ru/spbstu/kparsec/examples/KotlinParser.kt:29-37 | the first access runs the generator once, names its rule after the property, stores it and drops the generator; later accesses return the stored rule and run nothing |
| KotlinExample.AccessTwice | src/main/kotlin/ru/spbstu/kparsec/examples/KotlinParser.kt:22-40 | two accesses return the same rule, the generator's rule named after the property |
| KotlinExample.EscapeChar | src/main/kotlin/ru/spbstu/kparsec/examples/KotlinParser.kt:725-736 | letters and digits come through unchanged |
| KotlinExample.SameTableAsLibrary | src/main/kotlin/ru/spbstu/kparsec/examples/KotlinParser.kt:725-736 | the example's table rewrites each character as the library's `escape` does |
| KotlinExample.SameAsLibraryEscape | src/main/kotlin/ru/spbstu/kparsec/examples/KotlinParser.kt:725-736 | the example's `escape` equals the library's chain of replacements in src/main/kotlin/ru/spbstu/kparsec/wheels/StringEscape.kt |
| KotlinExample.EscapeKeepsLettersAndDigits | src/main/kotlin/ru/spbstu/kparsec/examples/KotlinParser.kt:725-736 | a string of letters and digits is returned unchanged |
| Ast.RepIsInjective | src/main/kotlin/ru/spbstu/kparsec/examples/tip/Ast.kt:19-23 | different binary operators print different symbols |
| Ast.Lines | src/main/kotlin/ru/spbstu/kparsec/examples/tip/Ast.kt:54-89 | `lines()` gives at least one line and no line holds a line feed |
| Ast.JoinLines | src/main/kotlin/ru/spbstu/kparsec/examples/tip/Ast.kt:54-89 | joining the lines back with line feeds gives the text again |
| Ast.LinesJoin | src/main/kotlin/ru/spbstu/kparsec/examples/tip/Ast.kt:54-89 | cutting a join of line-feed-free lines gives those lines back |
| Ast.PrependIndentLines | src/main/kotlin/ru/spbstu/kparsec/examples/tip/Ast.kt:54-89 | every line of `prependIndent`'s result is the corresponding line of its argument, indented |
| Ast.IndentSingleLines | src/main/kotlin/ru/spbstu/kparsec/examples/tip/Ast.kt:54-89 | a non-blank line without line feeds gets the indent in front |
| Ast.PprintFunction | src/main/kotlin/ru/spbstu/kparsec/examples/tip/Ast.kt:79-94 | `Function.pprint` builds the function text, whose lines are the header's, each body line indented by four spaces, the closing brace and an empty last line |
| Ast.PprintBody | src/main/kotlin/ru/spbstu/kparsec/examples/tip/Ast.kt:82-88 | the inner buffer holds the declaration line when there are variables, each statement on its own line, then the return |
| Ast.BodyTextLines | src/main/kotlin/ru/spbstu/kparsec/examples/tip/Ast.kt:82-88 | the lines of the inner buffer are the declaration's, the statements' and the return's |
| Ast.FunctionTextLines | src/main/kotlin/ru/spbstu/kparsec/examples/tip/Ast.kt:79-94 | the printed function is, line by line, the header, the indented body lines, the closing brace and an empty last line |
| Ast.FunctionLinesOneStatementEach | src/main/kotlin/ru/spbstu/kparsec/examples/tip/Ast.kt:79-94 | when every part prints on one line, the function prints as the header, the declaration if any, one indented line per statement in order, the indented return, and the closing brace |
| Ast.ProgramLines | src/main/kotlin/ru/spbstu/kparsec/examples/tip/Ast.kt:97-99 | a program prints its functions one after another, separated by an empty line |
| Ast.EmptyBlockText | src/main/kotlin/ru/spbstu/kparsec/examples/tip/Ast.kt:53-55 | an empty block prints its three-space indent between the braces |
| Ast.StoreDropsSemicolon | src/main/kotlin/ru/spbstu/kparsec/examples/tip/Ast.kt:57-72 | `Store` prints as the assignment through the pointer but without the final semicolon |
| Ast.IfPrintsNoElse | src/main/kotlin/ru/spbstu/kparsec/examples/tip/Ast.kt:64-66 | an `If` prints its false branch after the true branch and a space, with no `else`, and ends in that space when it has none |
| Ast.ConstantPrintsDecimal | src/main/kotlin/ru/spbstu/kparsec/examples/tip/Ast.kt:13-15 | a constant prints as its decimal value, with a minus sign when negative |
| Ast.CallShowsArguments | src/main/kotlin/ru/spbstu/kparsec/examples/tip/Ast.kt:46-48 | `Call` prints its arguments with `toString`, so `f(x, alloc)` prints as "f(Variable(name=x), Null)" |
| Ast.AllocShowsAsNull | src/main/kotlin/ru/spbstu/kparsec/examples/tip/Ast.kt:34-44 | `Alloc` and `Null` print differently but show alike |
| Transformer.TransformExpr | src/main/kotlin/ru/spbstu/kparsec/examples/tip/Transformer.kt:4-15 | with the default methods every expression is rebuilt equal to itself |
| Transformer.TransformStmt | src/main/kotlin/ru/spbstu/kparsec/examples/tip/Transformer.kt:17-30 | with the defaults every statement becomes the one-element list of itself |
| Transformer.TransformStmts | src/main/kotlin/ru/spbstu/kparsec/examples/tip/Transformer.kt:32 | splicing the statements' results gives back the same statements, in order |
| Transformer.TransformBlock | src/main/kotlin/ru/spbstu/kparsec/examples/tip/Transformer.kt:32 | a block keeps its statements, in order and in number |
| Transformer.TransformFunction | src/main/kotlin/ru/spbstu/kparsec/examples/tip/Transformer.kt:33-34 | a function becomes the one-element list of itself |
| Transformer.TransformFunctions | src/main/kotlin/ru/spbstu/kparsec/examples/tip/Transformer.kt:36-37 | splicing the functions' results gives back the same functions, in order |
| Transformer.TransformProgram | src/main/kotlin/ru/spbstu/kparsec/examples/tip/Transformer.kt:36-37 | `trasformProgram` keeps a program's functions, in order |
| Transformer.TransformStmtsAppend | src/main/kotlin/ru/spbstu/kparsec/examples/tip/Transformer.kt:32 | `flatMap` over `a + b` is the `flatMap` over `a` followed by that over `b` |
| Transformer.VisitExpr | src/main/kotlin/ru/spbstu/kparsec/examples/tip/Transformer.kt:45-56 | `visitExpr` gives `default()` at the six leaf kinds |
| Transformer.VisitArgs | src/main/kotlin/ru/spbstu/kparsec/examples/tip/Transformer.kt:54-55 | one visit per argument, in order |
| Transformer.VisitStmts | src/main/kotlin/ru/spbstu/kparsec/examples/tip/Transformer.kt:79 | one visit per statement, in order |
| Transformer.VisitFunctions | src/main/kotlin/ru/spbstu/kparsec/examples/tip/Transformer.kt:84-85 | one visit per function, in order |
| Transformer.VisitStmtsAppend | src/main/kotlin/ru/spbstu/kparsec/examples/tip/Transformer.kt:79 | the statement visits of `a + b` are those of `a` followed by those of `b` |
| Transformer.VisitExprKeepsDefault | src/main/kotlin/ru/spbstu/kparsec/examples/tip/Transformer.kt:45-56 | a visitor whose `combine` keeps its default visits every expression to that default |
| Transformer.VisitStmtKeepsDefault | src/main/kotlin/ru/spbstu/kparsec/examples/tip/Transformer.kt:58-77 | the same for every statement |
| Transformer.VisitBlockKeepsDefault | src/main/kotlin/ru/spbstu/kparsec/examples/tip/Transformer.kt:79 | the same for every block |
| Transformer.CountLeavesIsLeaves | src/main/kotlin/ru/spbstu/kparsec/examples/tip/Transformer.kt:45-56 | the visitor with `default() = 1` and `combine = sum` counts exactly the leaves `visitExpr` reaches: operands, loaded pointers and call arguments, never the callee |
| Transformer.IfCombinesThreeOrTwo | src/main/kotlin/ru/spbstu/kparsec/examples/tip/Transformer.kt:62-72 | an `if` combines three visits when it has a false branch and two when it has none |
| Interpreter.Stack.constructor | src/main/kotlin/ru/spbstu/kparsec/examples/tip/Interpreter.kt:3 | a new stack is empty |
| Interpreter.Stack.Push | src/main/kotlin/ru/spbstu/kparsec/examples/tip/Interpreter.kt:4 | `push` appends the value |
| Interpreter.Stack.Top | src/main/kotlin/ru/spbstu/kparsec/examples/tip/Interpreter.kt:5 | `top` returns the last element exactly when the stack is not empty, and otherwise throws |
| Interpreter.Stack.Pop | src/main/kotlin/ru/spbstu/kparsec/examples/tip/Interpreter.kt:6 | `pop` removes and returns the last element exactly when the stack is not empty, and otherwise throws and changes nothing |
| Interpreter.PushThenPop | src/main/kotlin/ru/spbstu/kparsec/examples/tip/Interpreter.kt:3-7 | `pop` right after `push(v)` returns `v` and leaves the stack as it was |
| Interpreter.Wrap | src/main/kotlin/ru/spbstu/kparsec/examples/tip/Interpreter.kt:35-37 | `Int` arithmetic keeps in-range values and is otherwise congruent modulo 2^32 |
| Interpreter.TruncDivRemainder | src/main/kotlin/ru/spbstu/kparsec/examples/tip/Interpreter.kt:38 | JVM division leaves a remainder with the dividend's sign and a smaller magnitude than the divisor |
| Interpreter.TruncDivBound | src/main/kotlin/ru/spbstu/kparsec/examples/tip/Interpreter.kt:38 | a truncated quotient is never larger in magnitude than the dividend |
| Interpreter.Quotient | src/main/kotlin/ru/spbstu/kparsec/examples/tip/Interpreter.kt:38 | `Int` division rounds toward zero, and fits except for `MIN_VALUE / -1` |
| Interpreter.QuotientOverflow | src/main/kotlin/ru/spbstu/kparsec/examples/tip/Interpreter.kt:38 | `Int.MIN_VALUE / -1` wraps back to `Int.MIN_VALUE` |
| Interpreter.Apply | src/main/kotlin/ru/spbstu/kparsec/examples/tip/Interpreter.kt:34-41 | only division by zero throws; `>` and `==` give 1 exactly when the comparison holds and 0 otherwise |
| Interpreter.LoadAt | src/main/kotlin/ru/spbstu/kparsec/examples/tip/Interpreter.kt:18 | `load` returns exactly for a mapped address, with its value, and otherwise throws naming the address in hexadecimal |
| Interpreter.ValueOf | src/main/kotlin/ru/spbstu/kparsec/examples/tip/Interpreter.kt:19 | `valueOf` returns exactly when the variable is named and its address is mapped, with the value stored there, and throws "No variable named" for an unnamed one |
| Interpreter.Interpreter.constructor | src/main/kotlin/ru/spbstu/kparsec/examples/tip/Interpreter.kt:9-16 | a new interpreter has the bump pointer at 0, empty maps and no input read |
| Interpreter.Interpreter.Interpret | src/main/kotlin/ru/spbstu/kparsec/examples/tip/Interpreter.kt:21-46 | `interpret(expr)` updates the bump pointer and the inputs read as the evaluation function says, and returns its outcome; the maps are unchanged |
| Interpreter.EffectFreeKeepsMachine | src/main/kotlin/ru/spbstu/kparsec/examples/tip/Interpreter.kt:21-46 | an expression with no `input` and no `alloc` leaves the machine as it was |
| Interpreter.InputsOnlyAdvance | src/main/kotlin/ru/spbstu/kparsec/examples/tip/Interpreter.kt:21-46 | evaluation never decreases the number of inputs read |
| Interpreter.LeftOperandFirst | src/main/kotlin/ru/spbstu/kparsec/examples/tip/Interpreter.kt:31-33 | `lhv` is evaluated before `rhv`: `input - input` subtracts the second value read from the first |
| Interpreter.AllocsDiffer | src/main/kotlin/ru/spbstu/kparsec/examples/tip/Interpreter.kt:24-27 | two `alloc`s in one expression yield different addresses, so `alloc == alloc` is 0 |
| Interpreter.AllocsStartAtOne | src/main/kotlin/ru/spbstu/kparsec/examples/tip/Interpreter.kt:14-27 | a fresh interpreter's first `alloc` returns 1 and its second 2 |
| Interpreter.VariableDefinedness | src/main/kotlin/ru/spbstu/kparsec/examples/tip/Interpreter.kt:19-29 | a variable evaluates exactly when it is named and its address mapped, to the stored value |
| Interpreter.LeftExceptionStops | src/main/kotlin/ru/spbstu/kparsec/examples/tip/Interpreter.kt:31-33 | an exception in `lhv` is the result of the whole binary expression, and `rhv` is not evaluated |
| Interpreter.AdditionWraps | src/main/kotlin/ru/spbstu/kparsec/examples/tip/Interpreter.kt:35 | `2147483647 + 1` is `-2147483648` |
| Interpreter.DivisionTruncates | src/main/kotlin/ru/spbstu/kparsec/examples/tip/Interpreter.kt:38 | `-7 / 2` is `-3`, and division by zero throws "/ by zero" |
| Interpreter.LoadOfNullThrows | src/main/kotlin/ru/spbstu/kparsec/examples/tip/Interpreter.kt:23-30 | `*(null)` throws "Invalid address: 0x0" when address 0 is unmapped |
| Equalities.Contains | src/main/kotlin/ru/spbstu/kparsec/examples/tip/constraint/Equalities.kt:5-21 | every term contains itself |
| Equalities.ContainsSmaller | src/main/kotlin/ru/spbstu/kparsec/examples/tip/constraint/Equalities.kt:9-18 | a term strictly contains only smaller terms, which is why a variable bound to a term containing it has no finite solution |
| Equalities.ContainsTransitive | src/main/kotlin/ru/spbstu/kparsec/examples/tip/constraint/Equalities.kt:18 | whatever occurs in a subterm occurs in the term |
| Equalities.CollectVariables | src/main/kotlin/ru/spbstu/kparsec/examples/tip/constraint/Equalities.kt:26-29 | `collectVariables(n, set)` adds exactly the variables the term contains |
| Equalities.CollectArguments | src/main/kotlin/ru/spbstu/kparsec/examples/tip/constraint/Equalities.kt:28 | collecting over the arguments adds exactly the variables contained in some argument |
| Equalities.CollectEquality | src/main/kotlin/ru/spbstu/kparsec/examples/tip/constraint/Equalities.kt:31-34 | collecting over an equation adds exactly the variables of its two sides |
| Equalities.Substitute | src/main/kotlin/ru/spbstu/kparsec/examples/tip/constraint/Equalities.kt:51-54 | `substitute` reaches a node the substitution does not bind, and leaves an unbound node as it is |
| Equalities.SubstituteFollows | src/main/kotlin/ru/spbstu/kparsec/examples/tip/constraint/Equalities.kt:51-52 | substituting a bound variable is substituting what it is bound to |
| Equalities.SubstituteStable | src/main/kotlin/ru/spbstu/kparsec/examples/tip/constraint/Equalities.kt:51-54 | the node `substitute` reaches does not depend on the step bound used to prove it finishes |
| Equalities.SubstituteAfterBind | src/main/kotlin/ru/spbstu/kparsec/examples/tip/constraint/Equalities.kt:51-54 | binding an unbound variable to an unbound node keeps every chain finite, and exactly the chains that ended at the variable now end at the node |
| Equalities.BindKeepsChains | src/main/kotlin/ru/spbstu/kparsec/examples/tip/constraint/Equalities.kt:87-88 | binding an unbound variable to a node other than itself that stays unbound keeps every chain of bindings finite |
| Equalities.Paired | src/main/kotlin/ru/spbstu/kparsec/examples/tip/constraint/Equalities.kt:63-65 | `decompose` enqueues one equation per argument position, the substituted arguments, left to right |
| Equalities.SubstitutePreserves | src/main/kotlin/ru/spbstu/kparsec/examples/tip/constraint/Equalities.kt:51-54 | under an assignment that agrees with the bindings, `substitute` does not change a term's value |
| Equalities.PairedSolves | src/main/kotlin/ru/spbstu/kparsec/examples/tip/constraint/Equalities.kt:57-66 | the argument equations `decompose` enqueues hold exactly when the two `Fun`s are the same term |
| Equalities.ApplyKeepsContains | src/main/kotlin/ru/spbstu/kparsec/examples/tip/constraint/Equalities.kt:5-21 | what a term contains, the term still contains after an assignment is applied |
| Equalities.OccursUnsolvable | src/main/kotlin/ru/spbstu/kparsec/examples/tip/constraint/Equalities.kt:84 | the occurs check is sound: no assignment makes a variable equal to a term strictly containing it |
| Equalities.DeleteSolutions | src/main/kotlin/ru/spbstu/kparsec/examples/tip/constraint/Equalities.kt:56 | the corrected `delete`: dropping an equation whose sides look up to the same node keeps the solutions |
| Equalities.DecomposeSolutions | src/main/kotlin/ru/spbstu/kparsec/examples/tip/constraint/Equalities.kt:57-66 | the corrected `decompose`: replacing an equation of two `Fun`s of one name and arity by their argument equations keeps the solutions |
| Equalities.ClashNoSolution | src/main/kotlin/ru/spbstu/kparsec/examples/tip/constraint/Equalities.kt:67 | `decompose` throws only on equations with no solution: `Fun`s of different names or arities |
| Equalities.SwapSolutions | src/main/kotlin/ru/spbstu/kparsec/examples/tip/constraint/Equalities.kt:72-80 | the corrected `swap`: turning an equation round keeps the solutions |
| Equalities.EliminateSolutions | src/main/kotlin/ru/spbstu/kparsec/examples/tip/constraint/Equalities.kt:81-92 | the corrected `eliminate`: moving an equation whose left side is a variable into the bindings keeps the solutions |
| Equalities.OccursNoSolution | src/main/kotlin/ru/spbstu/kparsec/examples/tip/constraint/Equalities.kt:84 | `eliminate` throws only on equations with no solution when the two sides differ |
| Equalities.PolledSolutions | src/main/kotlin/ru/spbstu/kparsec/examples/tip/constraint/Equalities.kt:94-99 | polling the head of the queue and handling it keeps the solutions the queue started with |
| Equalities.PolledNoSolution | src/main/kotlin/ru/spbstu/kparsec/examples/tip/constraint/Equalities.kt:94-99 | an unsolvable polled equation makes what the queue started with unsolvable |
| Equalities.Solver.constructor | src/main/kotlin/ru/spbstu/kparsec/examples/tip/constraint/Equalities.kt:36-49 | a new solver has every input equation queued, nothing bound, and exactly the variables of the equations unsolved |
| Equalities.Solver.EnqueuePaired | src/main/kotlin/ru/spbstu/kparsec/examples/tip/constraint/Equalities.kt:63-65 | the loop of `decompose` appends one equation per argument position, the substituted arguments, left to right, and changes nothing else |
| Equalities.Solver.Decompose | src/main/kotlin/ru/spbstu/kparsec/examples/tip/constraint/Equalities.kt:57-71 | the corrected `decompose`, looking both sides up to the end of their chains: two `Fun`s with the same name and arity enqueue their argument equations with the same solutions, a mismatch throws and has no solution, anything else passes the equation on; the substitution is unchanged |
| Equalities.Solver.Swap | src/main/kotlin/ru/spbstu/kparsec/examples/tip/constraint/Equalities.kt:72-80 | the corrected `swap`, on fully looked-up sides: a variable on the right facing a non-variable on the left is turned around and enqueued, with the same solutions; otherwise the equation passes on |
| Equalities.Solver.Eliminate | src/main/kotlin/ru/spbstu/kparsec/examples/tip/constraint/Equalities.kt:81-92 | the corrected `eliminate`, on fully looked-up sides: a variable on the left is bound to the right side and removed from the unsolved variables, with the same solutions, unless it occurs there, which throws and, when `delete` let the equation through, has no solution; every chain of bindings stays finite |
| Equalities.Solver.Step | src/main/kotlin/ru/spbstu/kparsec/examples/tip/constraint/Equalities.kt:94-99 | one round of `solve` with the corrected rules applies one of `delete`, `decompose`, `swap` and `eliminate` or throws, so the equation is never put back; what it applies keeps the solutions of the queue and bindings, and what throws has none |
| Equalities.Solver.Solve | src/main/kotlin/ru/spbstu/kparsec/examples/tip/constraint/Equalities.kt:94-101 | `solve` ends with an empty queue, an unsolvable equation, or, past the step budget, equations still queued; it throws only when the queue and bindings it started with have no solution, and otherwise keeps exactly their solutions |
| Equalities.Solver.Expand | src/main/kotlin/ru/spbstu/kparsec/examples/tip/constraint/Equalities.kt:103-108 | an expanded term mentions only its own variable and unsolved variables |
| Equalities.Solver.ExpandArguments | src/main/kotlin/ru/spbstu/kparsec/examples/tip/constraint/Equalities.kt:107 | expanding arguments keeps their number, and each mentions only the own variable and unsolved variables |
| Equalities.Solver.Result | src/main/kotlin/ru/spbstu/kparsec/examples/tip/constraint/Equalities.kt:110-114 | `result` has one binding per solved variable, each mentioning only its own variable and unsolved ones |
| Equalities.Solver.ExpandInstance | src/main/kotlin/ru/spbstu/kparsec/examples/tip/constraint/Equalities.kt:103-108 | an assignment that agrees with the bindings gives an expansion the value of the expanded term |
| Equalities.Solver.ExpandOwnIrrelevant | src/main/kotlin/ru/spbstu/kparsec/examples/tip/constraint/Equalities.kt:103-108 | two expansions of a term that never meet their own variables are equal, whatever the own variable and the fuel |
| Equalities.Solver.ExpandFollows | src/main/kotlin/ru/spbstu/kparsec/examples/tip/constraint/Equalities.kt:105-106 | expanding a variable's binding is expanding the node the variable substitutes to |
| Equalities.Solver.ExpandApplies | src/main/kotlin/ru/spbstu/kparsec/examples/tip/constraint/Equalities.kt:103-114 | when no binding of `result` mentions its own variable, applying the result to a term gives that term's expansion |
| Equalities.Solver.ResultAgrees | src/main/kotlin/ru/spbstu/kparsec/examples/tip/constraint/Equalities.kt:110-114 | `result` is sound: when no binding mentions its own variable, it satisfies every binding |
| Equalities.Solver.ResultInstance | src/main/kotlin/ru/spbstu/kparsec/examples/tip/constraint/Equalities.kt:110-114 | `result` is most general: every assignment agreeing with the bindings is an instance of each result binding |
| Equalities.SolveAndExpand | src/main/kotlin/ru/spbstu/kparsec/examples/tip/constraint/Equalities.kt:36-114 | `Solver(input)`, `solve()`, `result()`: unsolvable only when the input has no solution; every solution of the input is an instance of the result; a result without recursive bindings solves every input equation |
| Equalities.SwapTypesSolve | src/test/kotlin/ru/spbstu/kparsec/parsers/TipParserTest.kt:84-118 | the types `testSolver` expects, extended to the auxiliary variables, solve its thirteen equations |
| Equalities.TestSolver | src/test/kotlin/ru/spbstu/kparsec/parsers/TipParserTest.kt:83-119 | on the `testSolver` equations `solve` never throws, and the expected type of each variable is an instance of its result binding, equal to it when the binding has no variables |
| Equalities.CycleNeverEnds | src/main/kotlin/ru/spbstu/kparsec/examples/tip/constraint/Equalities.kt:51-54 | with `b` and `x` bound to each other, `substitute` from either never ends |
| Equalities.OneLevelLookupMakesCycle | src/main/kotlin/ru/spbstu/kparsec/examples/tip/constraint/Equalities.kt:42-92 | with the one-level lookup as written, solving `a = b, b = x, x = a` binds `x` to `b`, making a cycle on which `substitute` never returns |
| Equalities.FullLookupDeletes | src/main/kotlin/ru/spbstu/kparsec/examples/tip/constraint/Equalities.kt:51-56 | with the full `substitute`, the same third equation has equal sides and `delete` drops it |
| Equalities.OneLevelLookupOverwrites | src/main/kotlin/ru/spbstu/kparsec/examples/tip/constraint/Equalities.kt:42-92 | with the one-level lookup as written, `a = b, b = Int, a = Ptr(c)` reaches `eliminate` with `b` on the left and overwrites `b`'s binding `Int` with `Ptr(c)` |
| Equalities.OverwrittenEquationsUnsolvable | src/main/kotlin/ru/spbstu/kparsec/examples/tip/constraint/Equalities.kt:51-71 | those equations have no solution, and with the full `substitute` the third one sets `Int` against `Ptr(c)`, which `decompose` rejects |
| UnionFind.UnionFind.constructor | src/main/kotlin/ru/spbstu/kparsec/examples/tip/constraint/UnionFind.kt:3 | a new forest has no nodes |
| UnionFind.UnionFind.Single | src/main/kotlin/ru/spbstu/kparsec/examples/tip/constraint/UnionFind.kt:47 | `single` adds a fresh node holding the value, with no parent and rank 0, alone in its set |
| UnionFind.UnionFind.Unite | src/main/kotlin/ru/spbstu/kparsec/examples/tip/constraint/UnionFind.kt:48 | `unite(lhv, rhv)` is `lhv unite rhv` |
| UnionFind.UnionFind.Link | src/main/kotlin/ru/spbstu/kparsec/examples/tip/constraint/UnionFind.kt:18-21 | hanging a root under a root of larger rank keeps the forest and merges the two sets under the larger |
| UnionFind.UnionFind.LinkRaising | src/main/kotlin/ru/spbstu/kparsec/examples/tip/constraint/UnionFind.kt:26-30 | hanging a root under another and raising that one's rank keeps the forest for two different roots, and merges their sets |
| UnionFind.UnionFind.LinkRoots | src/main/kotlin/ru/spbstu/kparsec/examples/tip/constraint/UnionFind.kt:17-31 | the `when` of `unite` on two roots links the lower-ranked under the other, or on equal ranks the right under the left with its rank raised, and returns the survivor; no other rank changes |
| UnionFind.Node.constructor | src/main/kotlin/ru/spbstu/kparsec/examples/tip/constraint/UnionFind.kt:4 | a node holds its value and belongs to its forest |
| UnionFind.Node.Root | src/main/kotlin/ru/spbstu/kparsec/examples/tip/constraint/UnionFind.kt:11-12 | `root` returns the node's root, which has no parent, and only compresses paths: no node's root changes |
| UnionFind.Node.UniteAsWritten | src/main/kotlin/ru/spbstu/kparsec/examples/tip/constraint/UnionFind.kt:14-32 | `unite` as written returns the surviving root and bumps the left root's rank unless it is the smaller; the other root gets the survivor as parent and no other rank changes; for two nodes of one set it makes their root its own parent |
| UnionFind.Node.Unite | src/main/kotlin/ru/spbstu/kparsec/examples/tip/constraint/UnionFind.kt:14-32 | `unite` with a same-root guard keeps the forest, gives both nodes the returned root, one of their former roots, leaves every other set untouched, and changes no rank but the returned root's |
| UnionFind.Node.Equals | src/main/kotlin/ru/spbstu/kparsec/examples/tip/constraint/UnionFind.kt:34-38 | two nodes are equal exactly when they have the same root, and a non-node is equal to none |
| UnionFind.Node.Swap | src/main/kotlin/ru/spbstu/kparsec/examples/tip/constraint/UnionFind.kt:5-9 | `swap` exchanges the values of two nodes |
| UnionFind.AddKeepsForest | src/main/kotlin/ru/spbstu/kparsec/examples/tip/constraint/UnionFind.kt:47 | adding a new root keeps the forest |
| UnionFind.CompressKeepsForest | src/main/kotlin/ru/spbstu/kparsec/examples/tip/constraint/UnionFind.kt:12 | re-pointing a node at its root keeps the forest and every root |
| UnionFind.Relinked | src/main/kotlin/ru/spbstu/kparsec/examples/tip/constraint/UnionFind.kt:18-30 | after linking, the two sets share the surviving root and every other node keeps its own |
| UnionFind.LinkKeepsForest | src/main/kotlin/ru/spbstu/kparsec/examples/tip/constraint/UnionFind.kt:18-21 | linking a root under a root of larger rank keeps the forest |
| UnionFind.LinkRaisingKeepsForest | src/main/kotlin/ru/spbstu/kparsec/examples/tip/constraint/UnionFind.kt:26-30 | linking under a root whose rank goes up by one keeps the forest |
| UnionFind.CompressedStep | src/main/kotlin/ru/spbstu/kparsec/examples/tip/constraint/UnionFind.kt:12 | one more compression step is still path compression |

## Left out

- Clocks, threads and the Java regular-expression engine are not modelled. `RegexParser` is modelled only for the fixed digit-class expressions that the literal parsers use.
- `Literals.SPACES` is modelled as a greedy scan of the characters `\s` matches (space, tab, line feed, vertical tab, form feed, carriage return). `FLOAT`, `String.toDouble` and `Common.kt` are floating point and not part of this model.
- Integer literals decode into unbounded integers, so the overflow of `toLong` is not modelled.
- The abstract `input()` of the interpreter is a parameter: a stream of values with a count of the ones read.
- `interpret(Stmt)`, `output()` and `ListInterpreter` are not modelled. `interpret(Stmt)` is a `TODO()` in the Kotlin code.
- `Call`/`InCall` are modelled as the exception that `TODO()` throws.
- `hashCode` and the `toString` of parsers and results are not modelled. The `toString` loops of the sequence views are.
- Packrat: a rule body is either a pure parser or the left-recursive shape `self + suffix`. Other shapes that re-enter their own proxy have no total model.
- Laziness (`lazy`, `KProperty` delegation) is modelled as single-assignment cells and name-indexed maps, with property names as plain strings.
- The example grammars are not part of this model: the Kotlin lexer and parser objects, `TipParser`, the JSON and imperative-language examples, and `main`.
- The helpers those grammars rely on are not part of this model either: `maybe`, `must`, `zipTo`, `excluding`, `LimitedManyParser`, `ListInput`, `CSTRING`, and the `concat`/`manyToString` helpers of `KotlinParser.kt`.
- `Types.kt` is keyed by identity hash codes and is not part of this model.
- `Var` is identified by an explicit string id. The global default-id counter is not modelled.
- The substitution and the unsolved set are keyed by those ids.
- Combinators.ManyParser: when the element succeeds without consuming, the Kotlin loop (`Combinators.kt:212-216`) never ends; the function returns what it has collected at that point instead, so that case is not modelled as divergence.
- Inputs.Input.Source: past the end of the tokens it gives the empty sequence, where Kotlin's `subList(offset)` (`Input.kt:66`) throws; such inputs arise from `StringInput.drop`, which does not clamp its offset.
- Dsl.SimpleGrammarContext: a rule is a parser value in `nonTerminals`, and a parser value cannot invoke a proxy, which needs the context; so recursive rules, the reason forward references exist, are not modelled. Only binding, rebinding and lookup at call time are.
- Dsl.SimpleGrammarContext.Set: binds a parser that cannot itself invoke proxies, for the reason above.
- Equalities.SolveAndExpand: the result is proved to solve the input only when no binding mentions its own variable. A binding that does is a recursive type, which no finite term satisfies.
- Equalities.TestSolver: proves that the expected types are an instance of every result binding and that `solve` does not throw, not that `result()` holds exactly those bindings; that would need the solver evaluated on the thirteen equations.
- Equalities.Solver.Solve: takes a step budget because `solve` is not proved to terminate. `OutOfFuel` is the outcome past the budget.
- Equalities.Solver.Expand: takes a step budget for the same reason. `None` means the budget ran out.
- Equalities.Solver.Result: the result is a map, so the insertion order of Kotlin's `LinkedHashMap` is not modelled.
- UnionFind.Node.Equals: modelled for a node of the same forest or `null`, not for objects of other types or forests.
- UnionFind.UnionFind.Single: ranks are unbounded integers, so `Int` overflow of a rank is not modelled.
- The parent links and ranks of union-find nodes live in maps held by the forest, not in node fields. This lets one frame cover path compression.
- `Transformer`: the default transformer and visitor are modelled. Subclasses that override single cases are not.
- `appendln` is modelled as appending `"\n"`.
- `lines()` is modelled as splitting on `'\n'` only; `"\r"` is not treated as a line break.
- `SequenceAsTokenSequence` is modelled through the sequence its iterator yields. The laziness of Kotlin sequences is not modelled.

## Findings

| source | as written | input that shows it | evidently intended | confidence | as-written member | corrected member |
|---|---|---|---|---|---|---|
| src/main/kotlin/ru/spbstu/kparsec/parsers/Combinators.kt:104-119 | `SeqParser` adds each value before running the next parser, so the value of the last parser is never added | `sequence(success(1), success(2))` returns `[1]` | every element's value is collected: `[1, 2]` | not executed | Combinators.SequenceAsWrittenLosesValue | Combinators.RunSequence |
| src/main/kotlin/ru/spbstu/kparsec/Input.kt:34-35 | `subSequence` computes the new end as `to - endIndex` | `subSequence(1, 3)` of the view of all of "Hello" gives "e" | the end is `from + endIndex`, giving "el" | not executed | Inputs.SubSequenceAsWrittenWrongEnd | Inputs.SubSequence.SubView |
| src/main/kotlin/ru/spbstu/kparsec/wheels/AbstractCharSequence.kt:7-10 | `get` checks `index !in 0..length`, which admits `index == length` | the view "el" of "Hello" answers `get(2)` with `'l'` | `index !in 0 until length`, which throws | not executed | Sequences.CharSubGetReadsPastEnd | Sequences.CharSubGetOutside |
| src/main/kotlin/ru/spbstu/kparsec/examples/tip/constraint/UnionFind.kt:14-32 | `unite` has no case for two nodes with the same root; that root becomes its own parent | `a unite a` for a single node `a` | uniting two nodes of one set changes nothing | not executed | UnionFind.Node.UniteAsWritten | UnionFind.Node.Unite |
| src/main/kotlin/ru/spbstu/kparsec/examples/tip/constraint/Equalities.kt:42-92 | all four rules look the sides up one level only (`rlhv`, `rrhv`), so `eliminate` can close a cycle of variables | equations `a = b`, `b = x`, `x = a` bind `x` to `b`, and `substitute` from `b` never returns | look the sides up to the end of their chains, so the third equation has equal sides and is deleted | not executed | Equalities.OneLevelLookupMakesCycle | Equalities.Solver.Eliminate |
| src/main/kotlin/ru/spbstu/kparsec/examples/tip/constraint/Equalities.kt:42-92 | with the one-level lookup, `eliminate` can get a variable that is already bound and overwrite its binding | equations `a = b`, `b = Int`, `a = Ptr(c)`: the third looks `a` up as `b` and rebinds `b` to `Ptr(c)`, so the clash is lost | look the sides up to the end of their chains, so the third equation sets `Int` against `Ptr(c)` and `decompose` throws | not executed | Equalities.OneLevelLookupOverwrites | Equalities.Solver.Decompose |
