# joli core: style engine and tolerant parser

A Dafny model of the functional core of `index.js` in node-joli, a small
JSON transformation tool. It covers two operations:

- `exports.style(data, style)` applies a *style reference* to a JSON value.
  A reference is a style record (optional `filter`, `reduce`,
  `reduceInitialValue` and `map`), a registry name, or a list of references
  that is applied left to right. A single style always runs filter, then
  reduce, then map. Each step branches on whether the current value is an
  array.
- `exports.parse(data, fail)` runs `JSON.parse`. When that fails and `fail` is
  false, it looks for the span the regular expression `/\{.*\}/` matches,
  parses that span strictly, and adds the text split on the match as
  `_extra`. Text with no such span becomes `{text: data}`.

Files:

- `json.dfy` (module `JsonValue`): the JSON value type (integer numbers,
  objects as maps) and JavaScript truthiness.
- `errors.dfy` (module `Errors`): the three errors (`StyleNotFound(name)`,
  `EmptyReduce`, `ParseError(text)`), with `Option` and `Result` types.
- `style.dfy` (module `StyleEngine`): the step functions, the specification
  `Styled`, and the method `Apply`. `Apply` follows the code: a loop
  reassigns the running value for a chain, and the value is then overwritten
  step by step through filter, reduce and map. Its postcondition ties it to
  `Styled`. The lemmas state what each step does.
- `strings.dfy` (module `Strings`): the regex span search and
  `String.prototype.split` by a string, each proved against an independent
  description of what it should return.
- `parse.dfy` (module `TolerantParser`): `Parse` and its outcome lemmas.
- `scenarios.dfy` (module `Scenarios`): the behaviours checked in
  `test/style.js` and sample inputs for the parser, on concrete data.

The model follows the code wherever its behaviour differs from what one
might expect:

- The seed test (index.js:42) is JavaScript truthiness. A
  `reduceInitialValue` of `0`, `""`, `false` or `null` acts as no seed. So an
  empty array reduced with seed `0` is an `EmptyReduce` error
  (`Scenarios.EmptyReduceScenarios`). An empty object `{}` is truthy and does
  act as a seed.
- A chain does not stop on `null`. The next reference is applied to `Null`.
- One might read `/\{.*\}/` as spanning from the first `{` to the last `}`
  of the whole text. It does not, because `.` does not match a line
  terminator (`\n`, `\r`, U+2028, U+2029). It matches from the leftmost `{`
  that has a `}` later on the same line, up to the last `}` before that line
  ends (`Strings.IsRegexMatch`).
- One might expect `_extra` to hold only the text before and after the span.
  `split` cuts at every occurrence of the matched text, so `_extra` can hold
  more than two pieces.
  `TolerantParser.ExtraSurroundsMatch` shows the first piece is exactly the
  text before the match, because the match occurs nowhere earlier.
- `JSON.parse` is a parameter of type `string -> Option<Json>`, because the
  model does not define the JSON grammar. `None` stands for the SyntaxError
  it throws.

## Model

| member | source | states |
|---|---|---|
| `StyleEngine.Apply` | index.js:14-62 | the code's step-by-step run (chain loop, name lookup, filter/reduce/map overwrites, early `null` return, thrown errors) yields exactly `Styled(data, ref, registry)` |
| `StyleEngine.Styled` | index.js:14-27 | the specification of a reference: the only errors are `EmptyReduce` and `StyleNotFound` of a name missing from the registry; a missing name is exactly that error; see `NamedLookup`, `ChainSteps` |
| `StyleEngine.StyledAll` | index.js:16-21 | the empty list returns the data; the only errors are `EmptyReduce` and `StyleNotFound` of a missing name; see `StyledAllAppend` |
| `StyleEngine.StyledOne` | index.js:29-61 | a non-array rejected by the filter gives null; the only error is `EmptyReduce`, and only with a reducer and no truthy seed; without a reducer it never fails; see `StepOrderOnArray` |
| `StyleEngine.FilterStep` | index.js:30-37 | it stops (early null) exactly for a non-array the predicate rejects; on an array it yields a filter of the elements; otherwise the value is unchanged |
| `JsonValue.Truthy` | index.js:42 | the falsy values are exactly null, false, 0 and the empty string |
| `StyleEngine.FalsySeedIsNoSeed` | index.js:42-47 | a `reduceInitialValue` that is 0, "", false or null makes the whole style behave exactly as if it had none |
| `StyleEngine.SeedOf` | index.js:42 | no contract: the `if (style.reduceInitialValue)` test; see `FalsySeedIsNoSeed` and `ReduceOnArray` |
| `StyleEngine.ReduceStep` | index.js:40-49 | a non-array or a style without reducer is passed through; `EmptyReduce` exactly for an empty array with a reducer and no truthy seed; else the left fold from the seed, or from element 0 over the rest |
| `StyleEngine.MapStep` | index.js:52-59 | no map leaves the value; a non-array is passed to the map function once; an array is mapped elementwise with its length kept |
| `StyleEngine.StyledAllAppend` | index.js:16-21 | applying the list `a + b` equals applying `a` and then `b` to its result; an error in `a` ends the chain |
| `StyleEngine.ChainSteps` | index.js:16-21 | the empty list returns the data unchanged; `[x]` is `x`; `[a, b]` applies `b` to the result of `a` unless `a` fails |
| `StyleEngine.ChainPassesNull` | index.js:17-19 | a `null` intermediate result is passed to the rest of the chain, not short-circuited |
| `StyleEngine.ChainFlattens` | index.js:16-21 | a nested list, at any position, behaves as if its elements stood in the enclosing list |
| `StyleEngine.NamedLookup` | index.js:24-27 | a name absent from the registry is `StyleNotFound(name)`; a present name behaves exactly like its registered record |
| `Errors.MessageNamesStyle` | index.js:25 | of the thrown errors, the core words exactly the missing-name ones; two such messages are equal only for the same name |
| `Errors.Message` | index.js:25 | no contract: the message built for a missing name; see `MessageNamesStyle` and `MissingNameMessage` |
| `StyleEngine.MissingNameMessage` | index.js:24-26 | a missing name fails with the message ``Style `<name>` not found`` |
| `StyleEngine.FilterSeq` | index.js:32 | the filtered array is no longer than the input, every kept element satisfies the predicate, and the kept elements keep their order |
| `StyleEngine.FilterSeqIsFilter` | index.js:30-33 | the filtered array keeps every occurrence of every accepted element and nothing else, in order; it is the only sequence with these properties |
| `StyleEngine.FilterOnArray` | index.js:30-33 | on an array the filter step yields an array that is exactly the accepted elements in order, no longer than the input |
| `StyleEngine.FilterOnScalar` | index.js:34-36 | on a non-array a rejecting predicate gives `null` whatever the reduce and map; an accepting one leaves the value to the rest of the style as if there were no filter |
| `StyleEngine.NativeReduce` | index.js:43-46 | reduce fails exactly when there is no initial value and the array is empty, and its error is `EmptyReduce` |
| `StyleEngine.ReduceSkipsNonArray` | index.js:40-41 | a non-array is styled the same with or without the style's reducer and seed |
| `StyleEngine.ReduceOnArray` | index.js:40-49 | a truthy seed gives the left fold from the seed; no seed or a falsy one gives the left fold from element 0 over the rest; `EmptyReduce` exactly for an empty array without a truthy seed; a falsy seed acts as no seed |
| `StyleEngine.ReduceUnseededIsNative` | index.js:45-47 | without a usable seed the reduce step is the builtin `reduce(f)` without an initial value |
| `StyleEngine.FoldLeftStep` | index.js:43-46 | the fold is the builtin's accumulation: each prefix's result is the reducer applied to the previous prefix's result and the next element |
| `StyleEngine.MapSeq` | index.js:54 | mapping keeps the length and applies the function at every index, in order |
| `StyleEngine.MapAfterReduce` | index.js:52-59 | map tests the value produced by filter and reduce: an array is mapped elementwise with its length kept, anything else is passed to the function once |
| `StyleEngine.StepOrderOnArray` | index.js:29-61 | with every field set and a truthy seed, an array is filtered, then folded from the seed, then mapped (a falsy seed is covered by `FalsySeedIsNoSeed`) |
| `Strings.RegexMatch` | index.js:96 | the span search finds a span exactly when `/\{.*\}/` can match, and the span it returns is the leftmost start with its longest match on that line |
| `Strings.RegexMatchUnique` | index.js:96 | any leftmost-longest match is the one the span search returns |
| `Strings.LastCloseOnLineFinds` | index.js:96 | scanning from a `{` to the end of its line finds the greedy end of the match, or reports that the `{` has no match |
| `Strings.FindBraceSpanFinds` | index.js:96 | scanning start positions in order finds the first one with a match, and no earlier start has one |
| `Strings.MatchedText` | index.js:96 | the matched text starts with `{`, ends with `}` and has at least two characters |
| `Strings.FirstOccurrence` | index.js:99 | the position found is an occurrence of the separator and no earlier position from the start point is one |
| `Strings.Split` | index.js:99 | at least one piece; see `SplitCutsAtEveryOccurrence` for what the pieces are |
| `Strings.SplitCutsAtEveryOccurrence` | index.js:99 | joining the pieces with the separator gives back the text; no occurrence of the separator starts inside a piece; no piece contains the separator |
| `Strings.SplitOnOccurringText` | index.js:99 | splitting on text that occurs in the input yields at least two pieces |
| `TolerantParser.Parse` | index.js:86-108 | accepted text is returned as parsed; every error is a `ParseError` about a text `JSON.parse` rejected, and only when the input was rejected; strict mode turns a rejection into an error about the input; non-strict with no brace span never fails; see the lemmas below |
| `TolerantParser.SetExtra` | index.js:99 | on an object, `_extra` is set to the residue and every other property is kept as it was |
| `TolerantParser.CleanParse` | index.js:87-88 | text `JSON.parse` accepts is returned as parsed, with no `_extra`, in either mode |
| `TolerantParser.StrictFailure` | index.js:90-93 | in strict mode a rejected text is a `ParseError` about that text, with no fallback |
| `TolerantParser.WrapText` | index.js:104 | no contract: the literal `{text: data}`; see `WrapsTextWithoutSpan` |
| `TolerantParser.WrapsTextWithoutSpan` | index.js:102-105 | non-strict, with no brace span, the result is `{text: data}` and never an error |
| `TolerantParser.SpanFailure` | index.js:96-98 | non-strict, a match that does not parse is that parse's error; there is no second fallback |
| `TolerantParser.ExtraValue` | index.js:99 | no contract: `data.split(match[0])` as a JSON array; see `SpanRecovered`, `ExtraSurroundsMatch` and `ExtraRejoins` |
| `TolerantParser.SpanRecovered` | index.js:96-100 | non-strict, a match that parses to an object gives that object with `_extra` set or overwritten to the text split on the match, other keys kept |
| `TolerantParser.NonStrictErrors` | index.js:86-108 | a non-strict parse fails exactly when the text is rejected, a span exists and the span is rejected |
| `TolerantParser.ExtraSurroundsMatch` | index.js:99 | the first `_extra` piece is exactly the text before the match; the remaining pieces joined with the match give the text after it |
| `TolerantParser.ExtraRejoins` | index.js:99 | joining the `_extra` pieces with the matched text reproduces the whole input |
| `Scenarios.FilterByYear` | test/style.js:10-19 | filtering the five movies on `year === 2012` leaves one record, 'The Avengers' |
| `Scenarios.ReduceGrossWithoutSeed` | test/style.js:21-32 | reducing the grosses without a seed equals the builtin reduce and is 8931263599 |
| `Scenarios.ReduceSmallGross` | test/style.js:23-25 | the test's reducer over illustrative grosses 10, 20 and 30 gives 60 |
| `Scenarios.TallyYearsWithSeed` | test/style.js:34-50 | with seed `{}` the year tally is 2009:1, 1997:1, 2012:1, 2011:2 |
| `Scenarios.MapTitles` | test/style.js:52-61 | mapping to titles keeps five elements and the first is 'Avatar' |
| `Scenarios.EmptyReduceScenarios` | index.js:42-47 | an empty array without a seed, or with seed 0, is `EmptyReduce`; with seed 5 it is 5 |
| `Scenarios.MissingStyleName` | index.js:25 | an unregistered name is reported with that name |
| `Scenarios.RecoverEmbeddedObject` | index.js:95-100 | `blah {"a":1} blah` recovers `{a: 1, _extra: ["blah ", " blah"]}` |
| `Scenarios.WrapPlainText` | index.js:102-105 | `not json at all` becomes `{text: "not json at all"}` |
| `Scenarios.StrictRejectsBadText` | index.js:87-93 | `{bad` in strict mode is a `ParseError` |

## Left out

- `exports.stream` (index.js:64-84) is not modelled. It is a `through` stream that emits events and calls `JSON.stringify`: I/O over a foreign library.
- `loadModules`, `loadFiles` and the `exports.styles` / `exports.outputters` initialisers (index.js:131-175) are not modelled. They read the file system, `process.env` and `process.cwd()`, and `require` modules. The registry is an input `map<string, Style>`, so later roots overriding earlier ones is not modelled.
- Outputters are not modelled. The core never calls them.
- The JSON grammar is not modelled. `JSON.parse` is a parameter.
- `TolerantParser.SetExtra` leaves a non-object unchanged, where JavaScript would add the property to an array, ignore it on a non-null primitive and throw a `TypeError` on `null`; the model returns every non-object unchanged. With the real `JSON.parse` this case cannot arise, because a text that starts with `{` and ends with `}` parses only to an object. The outcome lemmas state the object case.
- `TolerantParser.Parse` takes `fail` as a `bool`: it stands for the truthiness of the argument (index.js:91), and an omitted argument, as in the call at index.js:68, means `false`.
- JavaScript's `undefined` is not a value of the model: `JsonValue.Get` reads a missing property as `Null`, so a callback that returns `undefined` is merged with one that returns `null`. No path of `exports.style` or `exports.parse` depends on the difference.
- Numbers are unbounded integers. JavaScript floating point, `NaN` and `-0` are not modelled.
- Callbacks are pure Dafny functions and predicates return `bool`. So the model leaves out side effects inside callbacks (the test's tally reducer updates its seed object in place; `Scenarios.TallyYear` builds a new object), exceptions thrown by callbacks, and truthiness coercion of non-boolean predicate results.
- The extra `(index, array)` arguments that `filter`, `map` and `reduce` pass to callbacks are not modelled.
- Objects are maps, so property order is not modelled. It is visible only when serialising, which is left out.
- A style name is looked up only among the registry's own entries. In the code, the registry is a plain object. So a name such as `constructor` finds an inherited property and is not reported as missing.
- Style references are only records, strings and lists. Any other JavaScript value passed as a style, or a registry entry that is not a style record, is not modelled.
- Strings are sequences of Unicode scalar values, while JavaScript strings are sequences of UTF-16 code units. A lone surrogate cannot be represented. For well-formed text this does not change the brace scan or `split`.
- `Strings.Split` requires a non-empty separator. The regex match is always at least two characters long, and JavaScript's special case for an empty separator is never reached.
