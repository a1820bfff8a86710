# The scheme-lessons step visualiser, modelled in Dafny

`visualizer.js` is a small Scheme stepper for teaching. It reads program
text into nested arrays. It then rewrites the expression one step at a time
and prints every intermediate form. This project models its evaluator core:
- the reader: `bakeToken`, and `tokenize` with its final pass;
- the value tests: `isFalse`, `isFunction`, `isSymbol`, `symbol`, `resolveSymbolIn`;
- the `define` and `if` macros and the `not` and operator natives;
- `substitute`, `scmApply`, `scmStep`, `scmEval`;
- the printer `scmStringify`.

It proves properties of these operations.

The loosely tagged JavaScript values become one closed datatype, `Values.Expr`.
Booleans, numbers, strings, arrays, `{symbol}` objects, natives, closures,
`{quote}` wrappers and `undefined` are each a variant. The JavaScript
behaviour the core relies on is written out:
- `parseFloat`: the longest decimal prefix after leading white space, and `Infinity`;
- `String(x)`: an array joins its elements with commas;
- loose `==` against the `#t`/`#f` literals;
- `JSON.stringify`.

These live in the modules `Numbers` and `JsConv`. Numbers are exact
decimals or ±Infinity. A TypeError thrown by reading `.symbol` of
`undefined` is an outcome (`Reducer.Outcome.TypeError`) that aborts
evaluation. Writes to `defs` made before the throw are kept.

The model is written in two layers:
- Pure functions state what each operation computes: `Reader.Tokens`,
  `Substitution.Substituted`, `Environment.Resolved`, `Reducer.StepOf`,
  `Reducer.Evaluated`.
- Methods follow the source's loops and in-place updates, and each is proved
  to compute its function: `Reader.Tokenize`, `Substitution.Substitute`,
  `Environment.ResolveSymbolIn`, and `Stepper.Interpreter`. The interpreter's
  field `defs` is the global table that `define` writes in place.

The lemmas cover several areas:
- the precedence of `bakeToken`;
- how the reader handles closed and unclosed groups;
- that reading the printed form of a tree of symbols, booleans and sequences
  gives the tree back;
- what substitution touches, and that it is idempotent;
- how `resolveSymbolIn` chooses between tables;
- the cases of `if` and `define`;
- how `scmApply` binds arguments;
- that a step reporting no step writes nothing and is a fixpoint;
- that what `scmEval` returns is such a fixpoint.

Where the code departs from what a reader of a Scheme would expect, the
model follows the code:
- Tokens are split at single blanks and at `"` only. `[` and `]` do not
  group, and other white space does not separate tokens.
- Quoted text inside a line is not read as a string. The branch of
  `tokenize` that would collect a string (lines 111-118) never runs,
  because `inString` is never set. A `"` ends the pending token and starts
  a new one, so `"abc"` reads as the symbol `"abc` followed by the empty
  string. The string branch of `bakeToken` sees a whole quoted token only
  when the leftover of a group that never closes is baked as one token
  (lines 145-146): `("ab"` reads as the string `ab`.
- `bakeToken` tests for quoted text before numbers.
- `scmStep` steps every child of a form in the same round (lines 227-230),
  not only the first child that can step (`Reducer.StepsEveryChild`).
- An `if` without an else branch whose test is false yields `undefined`,
  not `#f` (line 72).
- `if` steps its test even when the test cannot step. With an unbound
  symbol as its test, it reports a step every round without changing
  anything, so `scmEval` never returns.
- There are no `lambda`, `apply`, `list` or `define-struct` macros and no
  math library. User definitions go into the one global `defs` table. That
  table is never reset, and `=` is bound to the very native of `==`.
- `substitute` does not enter closures, and it has no splicing of variadic
  parameters. A closure's missing arguments are bound to `undefined`.
- `scmStringify` prints a closure without a usable name through
  `JSON.stringify`, not as `<lambda>`.

## Model

| member | source | states |
|---|---|---|
| Values.IsFalse | visualizer.js:11-16 | `isFalse`: the empty sequence or `#f`; what `if` does with it is stated by `Reducer.IfCases` and `Reducer.IfWithoutElse` |
| Values.IsFunction | visualizer.js:18-20 | `isFunction`: a native or a closure whose name is a non-empty string; its uses are stated by `Environment.Builtins`, `Printer.FunctionName` and `Reducer.StepAtom` |
| Values.IsSymbol | visualizer.js:22-24 | `isSymbol`: a `{symbol}` object; stated by `Values.Symbol` and `Environment.ResolvedFirst` |
| Values.Symbol | visualizer.js:41-43 | `symbol(name)` builds a value that `isSymbol` accepts and that carries `name` |
| Values.DropUndef | visualizer.js:228 | the filter keeps exactly the non-`undefined` elements with their repeats (as multisets), never adds one, and is the identity on a sequence without `undefined`; its order is stated by `Values.DropUndefAppend` |
| Values.DropUndefAppend | visualizer.js:228 | the filter keeps order: filtering a concatenation concatenates the filtered parts |
| Environment.Macros | visualizer.js:61-80 | the `macros` table holds exactly `define` and `if`; that such a form always steps is `Reducer.MacroAlwaysSteps` |
| Environment.Resolved | visualizer.js:26-39 | what `resolveSymbolIn` returns; computed by `Environment.ResolveSymbolIn`, its choice of table stated by `Environment.ResolvedFirst` |
| Environment.Builtins | visualizer.js:82-86 | every builtin is a native with a non-empty name, each named after its key except `=`, which is the same object as `==` |
| Environment.FirstBinding | visualizer.js:33-38 | the lookup finds nothing exactly when no table holds the name |
| Environment.FirstBindingAt | visualizer.js:33-37 | the answer comes from the first table, in order, that holds the name |
| Environment.ResolveSymbolIn | visualizer.js:26-39 | the loop returns the binding in the first table holding the symbol's name, and `undefined` for non-symbols or when no table has it |
| Environment.ResolvedFirst | visualizer.js:26-39 | `resolveSymbolIn` gives `undefined` for a non-symbol, and otherwise the binding of the first table that holds the name; later tables are never consulted |
| Reader.BakeToken | visualizer.js:88-100 | `bakeToken`; its order of tests is stated by `RoundTrip.BakeTokenPrecedence` |
| Reader.Rebake | visualizer.js:148-157 | one item of the final pass; stated by `RoundTrip.RebakeCanonical`, `RoundTrip.RebakeString` and `Findings.RebakeNumeric` |
| Reader.Scan | visualizer.js:109-147 | the character loop of `tokenize` as a function of its state; its cases are the five proof steps below, its groups are bounded by `Reader.ScanWithin`, and its result on blank-joined pieces is `RoundTrip.ScanPieces` |
| Reader.Read | visualizer.js:102-158 | `tokenize` with or without its final pass; with the pass it is `Reader.Tokens`, computed by `Reader.Tokenize`; without it is the corrected reader of "## Findings" (`Findings.IntendedGroup`), which no method computes |
| Reader.Tokens | visualizer.js:102-158 | what `tokenize` returns; stated by `RoundTrip.ClosedGroup`, `RoundTrip.UnclosedGroup`, `RoundTrip.UnclosedAfterPieces`, `RoundTrip.UnclosedString`, `RoundTrip.TokensForest` and `Findings.GroupCollapses` |
| Reader.ScanWithin | visualizer.js:119-140 | every group the character loop finds is strictly shorter than the text, since it starts after an opening parenthesis, so the recursive `tokenize` calls terminate |
| Reader.PushWithin | visualizer.js:125 | pushing a token, or a group shorter than the text, keeps every group found shorter than the text |
| Reader.BakeAllPush | visualizer.js:125-146 | pushing one more piece appends its baked value to the values pushed so far |
| Reader.ScanInGroup | visualizer.js:119-128 | proof step of `Reader.Tokenize`: inside a group, any character but the closing parenthesis of the outermost group only moves the depth: up for `(`, down for `)` |
| Reader.ScanCloseGroup | visualizer.js:122-127 | proof step of `Reader.Tokenize`: the parenthesis that closes the outermost group pushes the text between the parentheses as a group and leaves no token pending |
| Reader.ScanSeparator | visualizer.js:129-137 | proof step of `Reader.Tokenize`: at depth 0 a blank or a quote pushes the pending token, if any; a quote starts a new token at itself, a blank leaves none pending |
| Reader.ScanOpenGroup | visualizer.js:138-140 | proof step of `Reader.Tokenize`: at depth 0 an opening parenthesis starts a group just after itself at depth 1, dropping any pending token |
| Reader.ScanOther | visualizer.js:141-143 | proof step of `Reader.Tokenize`: at depth 0 any other character starts a token if none is pending and otherwise changes nothing |
| Reader.Tokenize | visualizer.js:102-158 | the character loop with its recursive calls and final pass computes `Tokens(text)` |
| Reader.RebakeEach | visualizer.js:148-157 | the `ast.map` loop computes the final pass item by item |
| Printer.Stringify | visualizer.js:181-196 | `scmStringify`; stated by `RoundTrip.StringifyBakeBool`, `RoundTrip.PrintSymbol`, `RoundTrip.BalancedPrint`, `Printer.PrintPlainString` and `RoundTrip.ReadPrinted` |
| Printer.StringifyAll | visualizer.js:191-192 | the blank-joined printed items; stated by `RoundTrip.BalancedPrintAll` and `RoundTrip.PrintedAllJoined` |
| Printer.FunctionName | visualizer.js:187-188 | the name a function is printed by is never empty |
| Printer.PrintPlainString | visualizer.js:194-195 | a string without quotes, backslashes or control characters prints as itself between double quotes |
| JsConv.ToString | visualizer.js:154 | `String(x)` as `parseFloat` sees it; stated by `RoundTrip.InertToString` and `Findings.PairText` |
| JsConv.LooseEquals | visualizer.js:149-152 | loose `==` against a `#` literal; stated by `RoundTrip.StringNotBool` and `RoundTrip.RebakeCanonical` |
| JsConv.Json | visualizer.js:194-195 | `JSON.stringify`; stated by `JsConv.JsonPlain` and `Printer.PrintPlainString` |
| JsConv.JsonPlain | visualizer.js:195 | a string of plain characters needs no escapes |
| Numbers.ParseFloat | visualizer.js:97 | `parseFloat`; stated by `Findings.ParseSingle`, `Findings.HashNotNumber` and `RoundTrip.InertNotNumber` |
| Substitution.Substituted | visualizer.js:160-179 | what `substitute` returns; computed by `Substitution.Substitute`, stated by the substitution lemmas below |
| Substitution.Substitute | visualizer.js:160-179 | the loop over an array body, mapping itself over nested arrays, computes `Substituted(subs, body)` |
| Substitution.SubstitutedShape | visualizer.js:162-173 | one output element per input element, so an array keeps its length; only symbols whose names are keys are replaced, and functions and other atoms are copied unchanged (also the proof step for the substitution lemmas below) |
| Substitution.SubstituteUntouched | visualizer.js:160-179 | a body none of whose symbols is a key comes back unchanged |
| Substitution.SubstituteEmpty | visualizer.js:160-179 | the empty substitution is the identity |
| Substitution.UntouchedByEmpty | visualizer.js:165 | no symbol is a key of the empty substitution |
| Substitution.SubstitutedUntouched | visualizer.js:160-179 | when no value mentions a key, no key symbol is left after substituting |
| Substitution.SubstituteIdempotent | visualizer.js:160-179 | substituting twice equals substituting once when no value mentions a key |
| Reducer.Define | visualizer.js:61-68 | the `define` macro; stated by `Reducer.DefineThenLookup` and `Reducer.DefineFunction` |
| Reducer.IfStep | visualizer.js:70-80 | the `if` macro; stated by `Reducer.IfCases`, `Reducer.IfWithoutElse` and `Reducer.IfUnboundTest` |
| Reducer.Apply | visualizer.js:198-210 | `scmApply`; stated by `Reducer.ApplyClosure` and `Reducer.EvalNot` |
| Reducer.StepOf | visualizer.js:212-236 | `scmStep`; stated by `Reducer.StepAtom`, `Reducer.MacroAlwaysSteps`, `Reducer.IdleKeepsDefs` and `Reducer.IdleIsFixpoint` |
| Reducer.Combine | visualizer.js:227-235 | the last part of `scmStep`; stated by `Reducer.IdleForm` and `Reducer.SteppedForm` |
| Reducer.Evaluated | visualizer.js:238-245 | `scmEval` under a fuel bound; stated by `Reducer.EvalFixpoint`, `Reducer.EvalFuelMonotone` and `Reducer.IfUnboundDiverges` |
| Reducer.StepChildren | visualizer.js:227 | stepping the children gives one reduction per child |
| Reducer.StepsEveryChild | visualizer.js:227-230 | every child of a form steps in the same round: `(x y)`, both names bound to values that are not functions, becomes the pair of their values in one step |
| Reducer.StepAtom | visualizer.js:214-222 | an atom never throws or writes `defs`; a quote and an unbound or `undefined`-bound name stay put without a step; a bound name becomes its value, counted as a step only when the value is not a function |
| Reducer.MacroAlwaysSteps | visualizer.js:223-226 | a form headed by `define` or `if` always reports a step, unless it throws |
| Reducer.IfCases | visualizer.js:70-80 | a false test (`#f` or the empty sequence) gives `expr[3]`, `#t` gives `expr[2]`, and any other test is stepped once in place at position 1 |
| Reducer.IfWithoutElse | visualizer.js:70-72 | an `if` without an else branch whose test is false yields `undefined` |
| Reducer.IfUnboundTest | visualizer.js:70-80 | an `if` whose test is an unbound symbol reports a step and returns the same form |
| Reducer.IfUnboundDiverges | visualizer.js:238-245 | `scmEval` on such a form runs out of every fuel bound, leaving `defs` unchanged |
| Reducer.SetSecondOnly | visualizer.js:76-78 | proof step of `Reducer.IfCases`: the `if` macro's copy differs from the form only at position 1, which it adds when the form had no test |
| Reducer.DefineThenLookup | visualizer.js:65-67 | `(define name value)` binds `name` to `value`, yields `undefined` as a step, and afterwards `name` steps to `value` |
| Reducer.DefineFunction | visualizer.js:61-67 | `(define (name params...) body ...)`, with any trailing items ignored, binds `name` to a closure named `name` over exactly those parameters and that body |
| Reducer.ArgSubsKeys | visualizer.js:204-207 | the keys of `argSub` are exactly the keys of the parameters |
| Reducer.ArgSubsBinding | visualizer.js:205-207 | parameter `i` is bound to `expr[i + 1]` unless a later parameter has the same key |
| Reducer.ApplyClosure | visualizer.js:198-210 | applying a closure with distinct parameter names substitutes argument `i + 1` for parameter `i` in its body; missing arguments are `undefined`, extra ones are ignored, and no other name is bound |
| Reducer.EvalNot | visualizer.js:82 | `(not b)` on the builtins evaluates in two steps to the negation of `b`, leaving `defs` unchanged |
| Reducer.IdleKeepsDefs | visualizer.js:212-236 | a step that reports no step wrote nothing to `defs` |
| Reducer.IdleChildrenKeepDefs | visualizer.js:227 | children none of which steps wrote nothing to `defs` |
| Reducer.IdleForm | visualizer.js:233-234 | a form whose children do not step and whose head is not a function is returned as is, with `defs` untouched |
| Reducer.SteppedForm | visualizer.js:228-230 | when a child steps, the form becomes its children's results without the `undefined` ones; the result is a sequence no longer than the form |
| Reducer.IdleIsFixpoint | visualizer.js:212-236 | a result that reports no step is a fixpoint: stepping it again reports no step, returns it and writes nothing |
| Reducer.EvalFixpoint | visualizer.js:238-245 | what `scmEval` returns is an expression on which `scmStep` reports no step, in the `defs` the evaluation left |
| Reducer.EvalFuelMonotone | visualizer.js:238-245 | a finished evaluation, whether a value or a TypeError, does not depend on the fuel bound |
| Stepper.Interpreter.constructor | visualizer.js:82-86 | the table starts as the builtins |
| Stepper.Interpreter.Define | visualizer.js:61-68 | the `define` macro writes `defs` in place exactly as `Reducer.Define` says, and throws on a missing target or head |
| Stepper.Interpreter.If | visualizer.js:70-80 | the `if` macro's outcome and new `defs` are those of `Reducer.IfStep` |
| Stepper.Interpreter.Apply | visualizer.js:198-210 | the `argSub` loop and the substitution compute `Reducer.Apply` |
| Stepper.Interpreter.Step | visualizer.js:212-236 | one step, with the children stepped in order, gives the outcome and the new `defs` of `Reducer.StepOf` |
| Stepper.Interpreter.Eval | visualizer.js:238-245 | the do-while loop gives the outcome and the new `defs` of `Reducer.Evaluated` |
| RoundTrip.BakeTokenPrecedence | visualizer.js:88-100 | a token bakes to a boolean exactly when it is `#t`/`#true`/`#f`/`#false`; to text exactly when it is quoted and not a boolean, with the two quotes stripped; to a number exactly when neither and `parseFloat` succeeds; otherwise to the symbol of that very text |
| RoundTrip.StringifyBakeBool | visualizer.js:181-186 | a baked boolean literal prints in its short spelling: `#t` for `#t`/`#true`, `#f` for `#f`/`#false` |
| RoundTrip.BakeSymbol | visualizer.js:96-98 | a token that is not a boolean, quoted or a number bakes to the symbol of that text |
| RoundTrip.PrintSymbol | visualizer.js:189-190 | a symbol prints as its name, so a baked symbol prints as the token it came from |
| RoundTrip.InertNotNumber | visualizer.js:154-155 | text starting with `[`, `t`, `f` or `,` is not a number |
| RoundTrip.InertToString | visualizer.js:148-157 | `String()` of a tree of symbols, booleans and sequences starts with one of those characters or is empty |
| RoundTrip.InertJoined | visualizer.js:148-157 | the same holds for the comma-joined items of such a tree |
| RoundTrip.RebakeCanonical | visualizer.js:148-157 | the final pass leaves a tree of plain symbols, booleans and sequences alone |
| RoundTrip.ScanNested | visualizer.js:119-128 | inside an open group the loop only counts parentheses: nothing is pushed and the group's start is kept |
| RoundTrip.ScanGroup | visualizer.js:119-140 | a balanced group opened at depth 0 is found as one piece holding the text between its parentheses |
| RoundTrip.ClosedGroup | visualizer.js:119-128 | a balanced group reads as one item: the final pass applied to the sequence of its inside's tokens |
| RoundTrip.UnclosedGroup | visualizer.js:145-146 | the text of a group that never closes, opened at the start of the text, is baked as one token instead of being reported |
| RoundTrip.UnclosedAfterPieces | visualizer.js:129-146 | after any tokens and closed groups joined by blanks, the text of a group that never closes becomes one more baked token after the tokens of what came before |
| RoundTrip.ScanUnclosedAfter | visualizer.js:119-146 | the loop finds the tokens and closed groups before an unclosed group, then the group's rest as one token |
| RoundTrip.ScanBefore | visualizer.js:119-137 | tokens and closed groups joined by blanks and followed by a blank are found as themselves, and the loop goes on after that blank with nothing pending |
| RoundTrip.ReadAppendToken | visualizer.js:102-158 | a text whose loop finds one more token than another's reads as the other's items followed by that token, baked and passed through the final pass |
| RoundTrip.ScanUnclosed | visualizer.js:138-146 | at depth 0, wherever it opens and whatever was found before, a group that never closes is found as one token: the rest of the text after its parenthesis |
| RoundTrip.QuotedFlat | visualizer.js:119-143 | a quoted text without parentheses never closes the group it follows |
| RoundTrip.BakeQuoted | visualizer.js:94-95 | a quoted token bakes to the text between its quotes |
| RoundTrip.StringNotBool | visualizer.js:149-152 | a string not starting with `#` is loosely equal to none of the boolean literals |
| RoundTrip.RebakeString | visualizer.js:148-157 | such a string that is not a number survives the final pass |
| RoundTrip.UnclosedString | visualizer.js:145-157 | `("ab"`, with `ab` free of parentheses, not a number and not starting with `#`, reads as the string `ab` |
| RoundTrip.ReadPrintedString | visualizer.js:102-196 | after an opening parenthesis, the printed form of such a string of plain characters reads back as that string |
| RoundTrip.BalancedPrint | visualizer.js:191-192 | the printed form of a tree closes every parenthesis it opens and never closes one opened before it |
| RoundTrip.BalancedPrintAll | visualizer.js:191-192 | the same holds for the blank-joined printed items |
| RoundTrip.ScanToken | visualizer.js:141-143 | over the characters of a pending token the loop changes nothing |
| RoundTrip.ScanAtom | visualizer.js:141-143 | a token at depth 0 is remembered from its first character on |
| RoundTrip.AtomText | visualizer.js:183-190 | an atom of such a tree prints as a non-empty run of token characters |
| RoundTrip.AtomPrint | visualizer.js:88-100 | such an atom's printed form bakes back to the atom |
| RoundTrip.ScanWholeToken | visualizer.js:129-146 | a token followed by a blank or the end of the text is pushed whole |
| RoundTrip.ScanPiece | visualizer.js:119-146 | a token of token characters or a balanced group, followed by a blank or the end of the text, is pushed as itself, and the loop goes on after the blank with nothing pending |
| RoundTrip.ScanNoPiece | visualizer.js:145-147 | with no pieces left the loop is at the end of the text and has found everything |
| RoundTrip.ScanLastPiece | visualizer.js:119-146 | the last of the blank-joined pieces is found as itself |
| RoundTrip.FirstPieceText | visualizer.js:129 | the first of several blank-joined pieces is followed by a blank and then by the text of the others |
| RoundTrip.NextPiece | visualizer.js:129-137 | after the first of several blank-joined pieces and its blank comes the text of the others |
| RoundTrip.ScanThenRest | visualizer.js:119-146 | once the loop finds all the pieces from the second one on, it finds them all from the first one on |
| RoundTrip.ScanPieces | visualizer.js:109-147 | the loop over whole pieces joined by single blanks finds exactly those pieces, in order |
| RoundTrip.PrintedWhole | visualizer.js:183-192 | a tree of plain symbols, booleans and sequences prints as the text of one whole piece: a run of token characters or a balanced group |
| RoundTrip.PrintedAllJoined | visualizer.js:191-192 | the printed items of such a forest are whole pieces whose texts, joined by blanks, are the printed forest |
| RoundTrip.BakePrinted | visualizer.js:125-157 | each printed item bakes back to itself once the final pass has run |
| RoundTrip.TokensForest | visualizer.js:102-158 | reading the blank-joined printed items of a forest of plain symbols, booleans and sequences gives the forest back |
| RoundTrip.ReadPrinted | visualizer.js:181-196 | `tokenize(scmStringify(e))` is `[e]` for every tree of plain symbols, booleans and sequences |
| Findings.ParseSingle | visualizer.js:97 | `parseFloat` of a non-zero digit followed by anything that cannot continue a number is that digit |
| Findings.DigitText | visualizer.js:148-157 | a non-zero digit's number prints as the digit |
| Findings.RebakeNumber | visualizer.js:148-157 | a number whose printed text parses back to it survives the final pass |
| Findings.BakeDigit | visualizer.js:96-98 | a non-zero digit bakes to its number |
| Findings.RebakeDigit | visualizer.js:148-157 | the number of a non-zero digit survives the final pass |
| Findings.ScanPair | visualizer.js:129-146 | two non-zero digits with a blank between them are found as two tokens |
| Findings.BakePair | visualizer.js:129-146 | those two tokens bake to the two numbers |
| Findings.RebakePair | visualizer.js:148-157 | the final pass keeps both numbers |
| Findings.ReadPair | visualizer.js:102-158 | the two digits read as the two numbers, with or without the final pass |
| Findings.PairText | visualizer.js:154 | `String()` of the sequence of the two numbers is the two digits joined by a comma |
| Findings.PairNumber | visualizer.js:154-155 | `parseFloat` of that sequence is the first digit's number |
| Findings.HashNotNumber | visualizer.js:149-155 | text starting with `#` is not a number |
| Findings.PairGroup | visualizer.js:119-157 | the two digits and the blank form a balanced group text whose tokens, joined by commas, parse as the first digit |
| Findings.RebakeNumeric | visualizer.js:148-157 | the final pass turns a sequence whose `String()` parses as a number into that number |
| Findings.NumericGroupCollapses | visualizer.js:148-157 | as written, a balanced group whose items, joined by commas, start like a number reads as that number alone |
| Findings.PairCollapses | visualizer.js:148-157 | as written, the group of two non-zero digits `(c d)` reads as the number `c` alone |
| Findings.GroupCollapses | visualizer.js:148-157 | as written, `(1 2)` reads as the number 1 |
| Findings.IntendedGroup | visualizer.js:125 | without the final pass at any level, a balanced group always reads as the sequence of its inside's tokens |
| Findings.IntendedPair | visualizer.js:125 | without that pass, `(c d)` of two non-zero digits reads as the sequence of the two numbers |
| Findings.IntendedKeepsGroup | visualizer.js:125 | without that pass, `(1 2)` reads as the sequence of 1 and 2 |

## Left out

- The page around the core is not modelled: element lookup, the buttons, `prepare`, the step list and `localStorage` (lines 1-7 and 247-283). This is presentation and storage.
- `mustExpand` (lines 45-55) is not modelled, because nothing calls it.
- The string branch of `tokenize` (lines 111-118) is not modelled, because `inString` is never set and the branch cannot run.
- `resolveSymbolIn` wraps a non-array `dicts` into an array (lines 30-32). The model always passes a sequence of tables, as every call site in the core does.
- JavaScript's `in` also finds inherited `Object.prototype` keys such as `toString`. The model's tables hold only the keys the program stores.
- Floating-point arithmetic is not modelled. The nine operators built with `eval` are a parameter (`Reducer.Arith`) that receives the operands' `parseFloat` values. Numbers are exact decimals: there is no rounding, no `-0`, and no overflow to Infinity.
- `null` and host objects other than the native procedures are not values of the model. The reader never produces them.
- Reducer.Arith: the operators give `NaN` when an operand does not parse as a number (`(+ x 1)` with `x` unbound) and for `(/ 0 0)` (line 84). `NaN` is not a value of the model, so the host parameter returns some other model value in its place, and no lemma depends on which one.
- Reducer.Evaluated: `scmEval` is modelled with a fuel bound, because its loop need not terminate (a self-referential `define`). Running out of fuel is the outcome `None`.
- Stack overflow from deep recursion in `tokenize`, `substitute` or `scmStep` is not modelled.
- The read-back round trip `RoundTrip.ReadPrinted` covers trees of symbols, booleans and sequences only. A tree with numbers does not read back in general: a group whose items start with a number collapses to that number (`Findings.GroupCollapses`, see "## Findings"). A string reads back only as the leftover of an unclosed group (`RoundTrip.ReadPrintedString`).
- At depth 0, a `(` drops a pending token that has no blank before it (`a(b)` reads as `(b)`). The model reproduces this (line 138) and does not state it as a separate lemma.

## Findings

| source | as written | input that shows it | evidently intended | confidence | as-written member | corrected member |
|---|---|---|---|---|---|---|
| visualizer.js:125,148-157 | The final pass also runs on nested levels, since each group is read by a recursive `tokenize` call. It hands a nested array to `parseFloat` through `String()`, which joins the elements with commas. | `(1 2)` reads as the number 1, so `(f (1 2))` reads as `(f 1)` | A closed group should always stay the sequence of its tokens. The pass repeats the boolean and number tests of `bakeToken`, and applies them to nested groups as well. The corrected reader drops the pass at every level, so it also keeps the leftover of an unclosed group such as `("12"` as the text `12` | not executed | Findings.GroupCollapses | Findings.IntendedGroup |
