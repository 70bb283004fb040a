# funkiicalc formula pipeline, modelled in Dafny

This project models the formula pipeline of the `Calc` class in `src/calc.h`. A caller hands
`calcthis` a line of text. `syntax` expands the variable declarations in front of a `;` with
`parse_vars`, then cleans the text and checks it. The accepted formula then goes either to
`checkandcompare`, when it holds a comparator, or to the leveled evaluator
`calculate(formula, 0, 0)`. Every failure sets the one field `mError` to a code of the closed
error enumeration.

The model has two layers.

- Pure functions state what each step computes, one module per stage:
  - `CalcErrors`: the error enumeration and `get_error_string`.
  - `CLib`: the C library as parameters, plus exact `floor`, `ceil`, `(int)` and 32-bit shifts.
  - `Text`: the `std::string` searches.
  - `Converters`: `bin2dec`, `oct2dec`, `hex2dec`, `factorial` and `fib`.
  - `Lexicon`: `isFunc` and `IsValidNum`.
  - `Normalizer`: the cleaning scan and the post-scan checks of `syntax`.
  - `Variables`: `parse_vars`.
  - `Evaluator`: `calculate`.
  - `Chains`: what `calculate` does on chains of numerals joined by operators of one level.
  - `Precedence`: how `calculate` gives `*`, `/`, `%` and `^` precedence over `+` and `-`, and parentheses precedence over all of them.
  - `Comparison`: `checkandcompare`.
  - `Formatting`: `format`.
  - `Pipeline`: `syntax` and `calcthis` put together.
- The `Funkii.Calc` class holds the object's fields:
  - `err` is `mError`; `result`, `formula`, `isCompare`, `list` and `output` are the other scalar and string fields.
  - The fixed arrays `compRes` (`mCompRes`) and `compare` (`mCompare`).
  - The process-wide `errno`.
  - An `exhausted` flag that records where the model's bounds were reached (see "Left out").

  Its methods run the source's loops step by step, with the loop invariants they need. Each is
  proved to leave exactly the state, or return exactly the value, that the function of the first
  layer specifies. `CalcThis` ends with `State() == Pipeline.CalcThis(lib, old(State()), raw)`.
  The lemmas then state what the source promises about those functions.

`long double` is modelled as exact `real`. `strtod`, the libm functions, `powl`, `fmod` and the
`setprecision(15)` printing are fields of a `CLib.Lib` value the object is built with, so nothing
is assumed about them.

The model follows the code as written, including where it departs from what the design intends:

- The accepted character set holds neither `,` nor `;`. A comma left in the formula part is dropped like any other character outside the set.
- The octal escape run admits `8` (`Normalizer.OctalRunAdmitsEight`), which `oct2dec` then rejects.
- A shift checks only its left operand for a fractional part.
- `pi` is recognised only once a term is handed past level 4. It is not a valid number, so at lower levels it is scanned as a term.
- The adjacency check jumps over the character after an admitted pair and after `op-`. So `1>=*2` and `1+-()` pass (`Normalizer.AdjacencySkipsCharacters`).
- The `factorial` loop starts at 0 and always yields 0 (`Converters.ProductFromZeroIsZero`).
- `fibonacci` answers only for a result of exactly 1475.
- At level 0, a chain of numerals joined by `*`, `/`, `%` and `^` groups to the right: `8/4/2` is `8/(4/2)`, which is 4 (`Precedence.TightChainIsRightFold`, `Precedence.EightOverFourOverTwo`), and `2^3^2` is `2^(3^2)`. Each operator after the first is taken back into the current term, and the whole term is regrouped with the first numeral at the end. Chains of `+` and `-` group to the left (`Chains.ChainIsLeftFold`).

## Model

| member | source | states |
|---|---|---|
| CalcErrors.Code | src/calc.h:115-135 | each error kind carries its enumerator's code; only "no error" is 0, the others are 1-16 or 100 |
| CalcErrors.CodeInjective | src/calc.h:115-135 | distinct error kinds carry distinct codes |
| CalcErrors.ErrorString | src/calc.h:1332-1358 | the message is empty exactly for "no error", and otherwise starts with "[CALC] Error: " |
| CalcErrors.ErrorStringInjective | src/calc.h:1332-1358 | two different error kinds never render the same message |
| CalcErrors.DetailIdentifies | src/calc.h:1337-1353 | each kind's text reads back as that kind, so the texts are pairwise different |
| CLib.ToInt32 | src/calc.h:1215-1216 | `(int)x` is a 32-bit value, equal to the truncation of `x` when that fits |
| CLib.Wrap32 | src/calc.h:1215 | the 32-bit wrap-around of a shift result is congruent to it modulo 2^32 and leaves in-range values alone |
| CLib.ShiftCount | src/calc.h:1215-1216 | the shift count is below 32 and is the operand itself when that is 0-31 |
| CLib.Shl32 | src/calc.h:1215 | a left shift is `a * 2^count` wrapped to 32 bits: congruent to it modulo 2^32, and equal to it when that fits |
| CLib.Shr32 | src/calc.h:1216 | a right shift is floor division by `2^count` (`r * 2^count <= a < (r + 1) * 2^count`), and keeps a 32-bit value 32-bit |
| CLib.Sticky | src/calc.h:1248-1255 | errno keeps the last error a library call set and is never cleared |
| Text.FindLastOf | src/calc.h:610 | `find_last_of`: the last position holding the character, -1 exactly when there is none |
| Text.FindFirstOf | src/calc.h:759 | `find_first_of(chars, from)`: the first position at or after `from` holding one of the characters, none before it |
| Text.FindFirst | src/calc.h:594 | `find(name)` reports the first occurrence, and -1 only when there is none |
| Text.Replace | src/calc.h:596 | `replace(x, n, w)` keeps the text before `x`, puts in `w`, then the text after the replaced `n` characters |
| Converters.Convert | src/calc.h:1261-1324 | a digit outside the base flags the base's error and gives 0; otherwise the value is the positional value, below base^length |
| Converters.ValuePrepend | src/calc.h:1263-1265 | each digit counts digit * base^(number of digits to its right), the sum the loops accumulate from the right |
| Converters.DigitsRoundTrip | src/calc.h:1296-1324 | writing a number in base b and converting it back gives the number |
| Converters.DigitChar | src/calc.h:1301-1317 | every digit value has a character the converter maps back to it |
| Converters.ProductFromZeroIsZero | src/calc.h:1329 | the factorial loop's product starts with 0, so it is 0 for every n and never n! |
| Converters.NegaFibRecurrence | src/calc.h:1038 | the sign rule for negative arguments keeps F(n+2) = F(n+1) + F(n) at every integer |
| Lexicon.SearchDown | src/calc.h:1015-1018 | the search from a slot down to 0 returns a slot holding the name, or 0 exactly when none of those slots holds it |
| Lexicon.IsFunc | src/calc.h:1012-1022 | the 1-based slot of a function name, 0 exactly for a word not in the table |
| Lexicon.IsFuncNumbersTable | src/calc.h:509-514 | every table name is recognised as its own slot number, so the table has no duplicates |
| Lexicon.ValidNumAlphabet | src/calc.h:987-1010 | a valid number holds only digits, points, signs and the letters a-f |
| Lexicon.ValidNumSignRule | src/calc.h:996-1002 | a sign past position 0 is admitted only when the last character before it that is not a digit or point is `e` |
| Lexicon.DecimalLiteralsValid | src/calc.h:987-1010 | decimal literals, with a leading `-` and an exponent with or without sign, are valid numbers |
| Lexicon.OperatorSplitsNumber | src/calc.h:992-1004 | digits followed by an operator or parenthesis are never a valid number |
| Lexicon.ValidNumQuirks | src/calc.h:994-1003 | "1e5-3", "face", "e" and "" pass; "pi" and "1-3" do not |
| Normalizer.AdjFrom | src/calc.h:701-740 | the adjacency loop yields no error, a syntax error or an empty-parentheses error |
| Normalizer.AcceptedFormulaAlphabet | src/calc.h:616-667 | an accepted formula holds no space and no upper-case letter, only `% ( ) * + - . / 0-9 < = > ^ a-z` |
| Normalizer.CleanWithoutEscapes | src/calc.h:637-664 | without a backslash the scan is the filter (accepted characters lower-cased, the others dropped), and the depth is the `(` count minus the `)` count |
| Normalizer.FilterKeepsFormulaText | src/calc.h:640-664 | text already in the formula alphabet passes the filter unchanged |
| Normalizer.RunThenClose | src/calc.h:619-636 | a digit run emits its admitted characters (hex letters lower-cased) and is closed by `)` at the first character it refuses or at the end of the input |
| Normalizer.EscapeExpands | src/calc.h:648-651 | `\b`, `\o`, `\x` emit `bin(`, `oct(` or `hex(`, then the run of admissible digits, then `)` |
| Normalizer.UnknownEscapeRejected | src/calc.h:652-656 | any other backslash escape is a syntax error |
| Normalizer.OctalRunAdmitsEight | src/calc.h:624 | the octal run admits `8`: `\o8` becomes `oct(8)` |
| Normalizer.SyntaxErrorClasses | src/calc.h:671-754 | bad escape is a syntax error; nonzero depth is a parentheses error; nothing left is the empty error (both directions); then invalid first character, trailing operator or `(`, last `(` after last `)` |
| Normalizer.AcceptedMeansChecked | src/calc.h:671-746 | an accepted formula is the scan's output at depth 0 and passed the first-character, last-character, parentheses and adjacency checks |
| Normalizer.WellAdjacentPasses | src/calc.h:701-740 | a text with no `()` and every operator followed by an operand start, `-` and an operand start, or an admitted pair passes the adjacency check |
| Normalizer.AdjErrorsJustified | src/calc.h:701-740 | every adjacency error points at a `()` or at an operator followed by a character that opens no operand and forms no admitted pair |
| Normalizer.AdjacencySkipsCharacters | src/calc.h:714-731 | the loop's jumps skip a character: `1>=*2` and `1+-()` pass although they break the rule |
| Normalizer.PairThenOperatorAccepted | src/calc.h:726-727 | `1 >= * 2` is accepted as `1>=*2` |
| Normalizer.NormalizeCleanText | src/calc.h:671-746 | a nonempty formula-alphabet text with as many `(` as `)` that passes the post-checks is accepted unchanged |
| Variables.SplitDecls | src/calc.h:573-589 | the declaration list is empty exactly when no `=` lies past position 0 |
| Variables.SplitRender | src/calc.h:573-589 | splitting a declaration section written out from plain declarations gives them back, last first |
| Variables.SplitStep | src/calc.h:580-586 | `r,name=value` splits into that declaration followed by the declarations of `r` |
| Variables.Wrap | src/calc.h:576 | a value is replaced by `(` value `)` |
| Variables.ReplaceAll | src/calc.h:595-599 | when the replacement loop ends, the name no longer occurs in the text |
| Variables.ReplaceAllIsSubst | src/calc.h:594-599 | for a nonempty name without parentheses that is absent from its value, the loop ends with every occurrence of the name, from left to right, replaced by the wrapped value (`Subst`) |
| Variables.ReplaceAllSubst | src/calc.h:594-599 | the loop over a text whose prefix holds no occurrence keeps that prefix and substitutes every occurrence after it |
| Variables.SubstFirst | src/calc.h:596 | the substitution keeps the text up to the first occurrence, puts in the value there, and goes on after it |
| Variables.Passes | src/calc.h:591-601 | the guard error comes with a declared name still in the text; a finished expansion has none left |
| Variables.ParseVars | src/calc.h:550-605 | `parse_vars` reports no error, the declarations error or the possible-infinite-loop error |
| Variables.NoDeclarations | src/calc.h:567-572 | no `=` past position 0 in the declarations is the declarations error, with the formula part returned untouched |
| Variables.ExpansionOutcome | src/calc.h:591-601 | a successful expansion leaves no declared name in the formula; the guard fires only with a name still there |
| Variables.ReplaceAllTerminates | src/calc.h:595-599 | for a name without parentheses that is absent from its value, the loop ends within any budget that covers the text's occurrences |
| Variables.BudgetSuffices | src/calc.h:595-599 | for such a name, one replacement more than the text's length is always enough |
| Variables.NameInValueDiverges | src/calc.h:595-599 | a name that occurs in its own wrapped value, once in the text, keeps the loop going for any budget |
| Variables.NextOccurrence | src/calc.h:596-598 | after a replacement the next occurrence lies past the inserted text |
| Evaluator.Combine | src/calc.h:1199-1220 | division or modulo by zero, or a shift of a non-integral left value, stops with the matching error; `+ - * /` compute the arithmetic; a shift yields an integral 32-bit value |
| Evaluator.LeftFoldCons | src/calc.h:1197-1221 | the left fold takes its first step first and goes on with the result |
| Evaluator.StoppedStays | src/calc.h:1205-1218 | once stopped, later operands do not change the outcome |
| Evaluator.FoldIsLeftFold | src/calc.h:1197-1221 | the fold loop's value is the left fold of the operands it evaluated, or -1 with the error that stopped it |
| Evaluator.FoldNext | src/calc.h:1197-1221 | a step that goes on continues from the next slot with the combined value and the errno it left |
| Evaluator.FoldStop | src/calc.h:1205-1218 | a step that stops sets the error and yields -1 |
| Evaluator.RegroupSlots | src/calc.h:1176-1184 | the regrouped slot holds `func(slot) op (term)` and is flagged `level + 1`, so it is evaluated one level deeper; every other slot, flag and function number stays |
| Evaluator.Lex | src/calc.h:1072-1128 | each step of the scan moves on by one or two characters |
| Evaluator.LexClasses | src/calc.h:1078-1128 | the character classes of a scan step: only a shift at depth 0 skips a character; `(` and `)` move the depth; inside parentheses (and from slot 999 on) every other character only grows the term; an operator at depth 0 is pushed and records |
| Evaluator.Apply | src/calc.h:1223-1256 | without a function the value passes through; an errno after the function makes the value 0 with EDOM, ERANGE or EPIC |
| Evaluator.FactorialOf | src/calc.h:1325-1331 | factorial is 0, with the out-of-bounds error exactly for negative or fractional input; from `INT_MAX` on, where the `int` counter never passes the argument, the evaluation is marked exhausted |
| Evaluator.Round | src/calc.h:1241-1244 | `round` lands within one half of its argument |
| Evaluator.Fold | src/calc.h:1196-1221 | the fold keeps the exhaustion flag and a set errno |
| Evaluator.Calculate | src/calc.h:1044-1260 | a set errno stays set through the evaluation |
| Chains.LevelChainIsLeftFold | src/calc.h:1072-1221 | numerals joined by `+` and `-` (level 0), by `*` (level 1) or by `^` (level 3), evaluated at that level, give the left fold of their values, which never stops |
| Chains.ChainIsLeftFold | src/calc.h:1072-1221 | numerals joined by `+` and `-` evaluate at level 0 to their sum, taken from the left |
| Chains.ProductIsLeftFold | src/calc.h:1072-1221 | numerals joined by `*` evaluate at level 1 to their product |
| Chains.ProductFold | src/calc.h:1202 | a fold of multiplications never stops and computes the product |
| Chains.EightMinusTwoMinusOne | src/calc.h:1197-1201 | `8-2-1` is 5, not 7 |
| Chains.ScanChain | src/calc.h:1072-1193 | scanning a chain at its level puts term q in slot o+q and operator q in `oper[op+q]`, leaves the slots before alone, and recognises no function |
| Chains.AdditiveFold | src/calc.h:1200-1201 | a fold of additions and subtractions never stops and computes the sum |
| Chains.NumeralLeaf | src/calc.h:1049-1057 | a numeral is a leaf read by `strtod` |
| Chains.NumeralNotFunc | src/calc.h:1012-1022 | no function name is a numeral |
| Chains.ChainNotNumber | src/calc.h:987-1010 | a chain of two or more terms is not a valid number, so it is scanned |
| Chains.CalculateSplits | src/calc.h:1196-1221 | a formula that is not a number evaluates slot 0, then folds the others onto it |
| Chains.FoldChain | src/calc.h:1197-1198 | folding the slots of a scanned chain evaluates its terms with `strtod`, in order |
| Precedence.ScanSumWithProduct | src/calc.h:1098-1193 | `a + n0*n1*...` scans at level 0 into two slots, `a` and the whole product flagged level 1, joined by the `+` or `-` |
| Precedence.SumWithProduct | src/calc.h:1133-1221 | `a + n0*n1*...` evaluates to `a` plus (or minus) the product, not to the left fold `(a + n0) * n1 ...` |
| Precedence.TwoPlusThreeTimesFour | src/calc.h:1133-1221 | `2+3*4` is 14 |
| Precedence.GroupScan | src/calc.h:1080-1098 | a formula that is one group `(x)` scans, at any level, into one slot holding `x`, flagged level 0 |
| Precedence.GroupRestarts | src/calc.h:1080-1198 | such a group evaluates at any level up to 4 exactly as `x` evaluated from level 0 |
| Precedence.JoinedRecord | src/calc.h:1133-1193 | a term whose operator binds tighter than the level becomes `(slot) op (term)` in the slot before, flagged for the next level, with the operator taken back and the other slots kept |
| Precedence.RegroupedProduct | src/calc.h:1133-1193 | at level 0, `(x)*n` becomes the one slot `(x)*(n)`, flagged level 1 |
| Precedence.GroupTimesNumeral | src/calc.h:1080-1221 | `(x)*n` evaluates to `x`, evaluated from level 0, times the value of `n` |
| Precedence.GroupTimesValue | src/calc.h:1080-1221 | the regrouped `(x)*(n)` evaluates at level 1 to `x`, evaluated from level 0, times the value of `n` |
| Precedence.TermTail | src/calc.h:1098-1193 | at level 0, digits and `*`, `/`, `%`, `^` after a pending operator all join the current term, leaving the slots and earlier operators alone |
| Precedence.ProductTail | src/calc.h:1098-1193 | after a `+` or `-`, such a tail is recorded at the end as one slot flagged level 1 |
| Precedence.TightChars | src/calc.h:1098-1128 | a chain of numerals joined by tight operators starts with a digit and holds only digits and those operators |
| Precedence.RightTerm | src/calc.h:1098-1193 | before the end of `a d t` at level 0, `a` is slot 0, `d` is pending and `t` is the current term |
| Precedence.RightGrouped | src/calc.h:1133-1193 | at level 0, `a d t` with `d` one of `*`, `/`, `%`, `^` becomes the one slot `(a) d (t)`, flagged level 1 |
| Precedence.ScanGroupOp | src/calc.h:1080-1193 | at the level of `d`, `(x) d (y)` scans into two slots `x` and `y`, both flagged level 0, joined by `d` |
| Precedence.RegroupGroupOp | src/calc.h:1133-1193 | below the level of `d`, `(x) d (y)` is regrouped into itself, one slot flagged for the next level |
| Precedence.GroupOpJoins | src/calc.h:1133-1198 | below the level of `d`, evaluating `(x) d (y)` passes it unchanged to the next level |
| Precedence.Climb | src/calc.h:1133-1198 | from level 1, `(x) d (y)` reaches the level of `d` unchanged |
| Precedence.GroupOpSplits | src/calc.h:1196-1221 | at the level of `d`, `(x) d (y)` applies `d` to `x` and `y`, each evaluated from level 0, when `d` does not stop |
| Precedence.RightGroupedSlot | src/calc.h:1072-1221 | at level 0, `a d t` evaluates as `(a) d (t)` does at the level of `d` |
| Precedence.RightGroupValue | src/calc.h:1072-1221 | at level 0, `a d t` is `a` combined by `d` with the value of `t`: the right part is evaluated first |
| Precedence.TightChainIsRightFold | src/calc.h:1072-1221 | at level 0, numerals joined by `*`, `/`, `%` and `^` evaluate to the right fold of their values, when it does not stop |
| Precedence.EightOverFourOverTwo | src/calc.h:1133-1221 | `8/4/2` is 4, not 1 |
| Precedence.GroupedSumTimes | src/calc.h:1080-1221 | `(a+b)*n` is `(a + b) * n`: the group is evaluated first |
| Precedence.GroupedSumTimesFour | src/calc.h:1080-1221 | `(2+3)*4` is 20 |
| Comparison.Classify | src/calc.h:774-789 | the comparator at a `<`, `>` or `=` is the two-character one exactly when the next character completes one |
| Comparison.NextCmpFirst | src/calc.h:759 | no comparator character lies before the one the search finds |
| Comparison.SplitJoins | src/calc.h:765-792 | the pieces and comparators join back into the formula |
| Comparison.SplitPaired | src/calc.h:768-769 | within each piece every comparator character is part of a `<<` or `>>` (the last piece too, below 1000 comparators) |
| Comparison.SplitPlain | src/calc.h:765-792 | a formula without comparator characters is one piece |
| Comparison.Verdicts | src/calc.h:801-837 | `mCompare[i]` is whether comparator i holds between values i and i+1 |
| Comparison.ChainValue | src/calc.h:842-849 | the result is 1 or 0 |
| Comparison.ChainMeansEveryPair | src/calc.h:842-849 | the result is 1 exactly when every adjacent pair satisfies its comparator, and 0 exactly when one does not |
| Comparison.EvalPieces | src/calc.h:771-793 | one value per piece, with the exhaustion flag and errno kept |
| Comparison.RenderedStep | src/calc.h:797-840 | the output gains the first value before the first comparator, then each comparator's symbol and the value after it, formatted |
| Comparison.CheckAndCompare | src/calc.h:757-850 | one more value than verdicts, one per piece; with a comparator, the result is 1 exactly when every verdict holds |
| Formatting.FormatStrips | src/calc.h:974-986 | removing the commas from the formatted text gives back the input: formatting only adds separators |
| Formatting.GroupCount | src/calc.h:982 | grouping adds one comma per full group of three past the limit |
| Formatting.GroupPositions | src/calc.h:982 | the commas stand exactly every four characters from the right, past the limit |
| Formatting.FormatParts | src/calc.h:974-986 | the result is the grouped integer part, then the fraction and the exponent part as they were |
| Formatting.FormatInteger | src/calc.h:980-982 | a number with neither point nor exponent is grouped whole |
| Formatting.FormatFractional | src/calc.h:980-982 | with a fraction, only the integer part is grouped |
| Formatting.FormatMillions | src/calc.h:974-986 | `1234567` becomes `1,234,567` |
| Formatting.FormatNegative | src/calc.h:982 | no comma after a leading `-`: `-1234.5` becomes `-1,234.5`, `-123` stays |
| Formatting.FormatFraction | src/calc.h:980-982 | `12345.678` becomes `12,345.678` |
| Pipeline.Syntax | src/calc.h:606-755 | an accepted formula is nonempty, in the formula alphabet, starts an operand, has no trailing comparator and passed the checks; a rejection leaves no formula and an error |
| Pipeline.Normalized | src/calc.h:612-755 | the same for the normalization after the variables |
| Pipeline.SyntaxWithoutVariables | src/calc.h:610-611 | without a `;` past position 0, `syntax` is the normalization alone and keeps the error it found |
| Pipeline.SyntaxKeepsDeclarationError | src/calc.h:567-572 | a declarations error survives an accepted formula |
| Pipeline.Unpaired | src/calc.h:535-543 | the search for a lone `>` or `<` returns one that is not followed by another, or -1 |
| Pipeline.PlainIsArithmetic | src/calc.h:533-545 | a formula without `<`, `>`, `=` is calculated, not compared |
| Pipeline.ShiftIsNotComparison | src/calc.h:533-545 | `1<<2` is arithmetic; `1<2` is a comparison |
| Pipeline.Overwrite | src/calc.h:772 | entries written over the front of a fixed array: same length, the entries past them kept |
| Pipeline.CalcThis | src/calc.h:527-549 | errno stays set; the formula is empty or an accepted one; the arrays keep their lengths; arithmetic leaves the comparison fields alone |
| Pipeline.Dispatch | src/calc.h:533-546 | the same for the part after `syntax` |
| Pipeline.RejectedFormula | src/calc.h:530-531 | a rejected formula leaves no formula, the error, result 0 and no comparison |
| Pipeline.ArithmeticFormula | src/calc.h:544-545 | an arithmetic formula's result and machine are those of `calculate(formula, 0, 0)` |
| Pipeline.ComparisonFormula | src/calc.h:544 | a comparison sets `mIsCompare`, lists the pieces that join back into the formula, and is 1 exactly when every comparator holds between its values |
| Pipeline.CompareSession | src/calc.h:757-850 | the session a comparison leaves holds `checkandcompare`'s list, result and values |
| Pipeline.CompareVerdicts | src/calc.h:757-850 | `checkandcompare` lists the pieces of the split and is 1 exactly when the chain holds |
| Funkii.Calc.ResultD | src/calc.h:879-882 | the result without error, 0 after one |
| Funkii.Calc.Error | src/calc.h:883-886 | true exactly when an error is set |
| Funkii.Calc.GetError | src/calc.h:887 | the message is empty exactly without error, and carries the prefix otherwise |
| Funkii.Calc.IsValidNum | src/calc.h:987-1010 | the loop answers `ValidNum`, and a valid number is in the number alphabet |
| Funkii.Calc.ToDecimal | src/calc.h:1261-1324 | the loops return `Convert`'s value and set the base's error exactly on a bad digit |
| Funkii.Calc.Factorial | src/calc.h:1325-1331 | returns 0 and leaves the machine `FactorialOf` specifies: the out-of-bounds error for negative or fractional input, the exhaustion flag from `INT_MAX` on |
| Funkii.Calc.Fib | src/calc.h:1023-1043 | F(n) with the sign rule for -1476 < n < 1476, and 0 beyond |
| Funkii.Calc.Fibonacci | src/calc.h:888-900 | the error's message after an error; F(1475) for a result of exactly 1475; the out-of-bounds message otherwise |
| Funkii.Calc.Format | src/calc.h:974-986 | returns `Format(input)`, which only adds commas to the input |
| Funkii.Calc.InsertCommas | src/calc.h:982 | the comma loop groups the part before the point and keeps the rest |
| Funkii.Calc.LeafValue | src/calc.h:1049-1057 | the leaf branch: a base converter under `bin`, `oct` or `hex`, `e`, or `strtod` |
| Funkii.Calc.ScanSlots | src/calc.h:1072-1194 | the scanning loop leaves the slots, operators and flags `ScanFrom` specifies |
| Funkii.Calc.CombineStep | src/calc.h:1199-1220 | one case of the fold's `switch`: stop with -1 and the error, or go on with the combined value and errno |
| Funkii.Calc.FoldSlots | src/calc.h:1196-1221 | the fold loop leaves the value and machine of `Fold` |
| Funkii.Calc.FoldOne | src/calc.h:1198-1220 | one pass of the fold loop continues the same fold |
| Funkii.Calc.ApplyFunction | src/calc.h:1223-1256 | the function switch and errno check leave `Apply`'s value and machine |
| Funkii.Calc.Calculate | src/calc.h:1044-1260 | `calculate` returns and leaves exactly what `Evaluator.Calculate` specifies, changing only the error, errno and flag |
| Funkii.Calc.ParseVars | src/calc.h:550-605 | the formula part and error `parse_vars` specifies, or the exhaustion flag where the loop would not end |
| Funkii.Calc.SplitDeclarations | src/calc.h:573-589 | the splitting loop yields `SplitDecls` |
| Funkii.Calc.Expand | src/calc.h:591-601 | the five passes and the guard pass yield `Passes` |
| Funkii.Calc.Pass | src/calc.h:591-599 | one pass over the declarations yields `PassFrom` |
| Funkii.Calc.ReplaceName | src/calc.h:595-599 | the replacement loop ends within the budget exactly when `ReplaceAll` does, with its text |
| Funkii.Calc.Syntax | src/calc.h:606-755 | `syntax` sets the error, the verdict and `mFormula` as `Pipeline.Syntax` specifies, touching no other field |
| Funkii.Calc.Declare | src/calc.h:610-611 | the variable step leaves the text and error of `Declared` |
| Funkii.Calc.Check | src/calc.h:612-755 | the cleaning loop and checks give `Normalize`'s verdict |
| Funkii.Calc.CleanScan | src/calc.h:612-668 | the cleaning loop, with its rewinding index, yields `Clean` |
| Funkii.Calc.CheckAdjacent | src/calc.h:701-740 | the adjacency loop yields `AdjFrom` |
| Funkii.Calc.CheckAndCompare | src/calc.h:757-850 | machine, result, `mList`, `mOutput`, and the fronts of `mCompRes` and `mCompare`, as `Comparison.CheckAndCompare` specifies |
| Funkii.Calc.SplitPieces | src/calc.h:765-793 | `mList` and the comparators are the split of the formula (`Comparison.Split`), and the pieces' values fill the front of `mCompRes` |
| Funkii.Calc.CutPiece | src/calc.h:771-790 | a comparator cut keeps the splitting loop's invariant one piece further |
| Funkii.Calc.CutLast | src/calc.h:792-793 | the last piece completes the split and its evaluation |
| Funkii.CutStep | src/calc.h:771-790 | a cut piece and comparator, evaluated, extend the pieces found so far toward the split |
| Funkii.LastStep | src/calc.h:792-793 | after the last piece the pieces are the split and its values are in front |
| Funkii.Calc.EvaluateNext | src/calc.h:772 | `mCompRes[j] = calculate(piece, 0, 0)` extends the evaluated pieces by one |
| Funkii.Calc.CompareValues | src/calc.h:795-841 | the front of `mCompare` holds the verdicts and `mOutput` the rendering |
| Funkii.Calc.CompareAt | src/calc.h:801-837 | one pass writes verdict i and renders one comparator more |
| Funkii.Calc.PrintAt | src/calc.h:797-840 | one pass's printing renders one comparator more |
| Funkii.Calc.ChainResult | src/calc.h:842-849 | the `tmpcmp` loop yields `ChainValue` of the verdicts |
| Funkii.Calc.constructor | src/calc.h:515-516 | a new object is valid and holds the state `calcthis` leaves on a fresh object (`Calc()` is `Calc("0")`) |
| Funkii.Calc.CalcThis | src/calc.h:527-549 | `calcthis` leaves exactly the state `Pipeline.CalcThis` specifies |
| Funkii.Calc.Dispatch | src/calc.h:533-546 | the choice between comparison and calculation leaves the state `Pipeline.Dispatch` specifies |
| Funkii.Calc.SkipShifts | src/calc.h:535-543 | the `while (check && g > 0)` loop yields `Unpaired` |

## Left out

- Debug macros and file logging: these are I/O and are not modelled.
- The numeric constructor and `assign` overloads, `result_s`, `result_c_str`, `tocelsius`, `tofahrenheit` and `duration`: they print numbers into text and re-enter `calcthis`. Not modelled. `assign(string)` is `calcthis` itself (`Funkii.Calc.CalcThis`), and `Calc()` and `Calc(string)` are `Funkii.Calc.constructor`.
- `strtod`, the libm calls, `powl`, `fmod`, and printing with `setprecision(15)`: fields of `CLib.Lib`, never interpreted.
  - `long double` rounding is not modelled; arithmetic is exact on `real`.
  - `PI` and `EXP` are `Evaluator.Pi` and `Evaluator.Exp`, with the source's digits; nothing is proved about them.
- Evaluator.Calculate: the source recurses with no bound. The model gives each evaluation a budget of `MaxDepth` (1000) nested calls. Termination of the regrouping recursion cannot be shown, since "(-1)*(" wrapping and regrouping grow strings. An evaluation that runs out sets the `exhausted` flag and yields 0, a state the source never reaches. `factorial` of an argument of `INT_MAX` or more, whose loop never ends in the source, sets the same flag.
- Evaluator.Calculate: its own contract states only that errno stays set. What it computes is stated by lemmas, and `Funkii.Calc.Calculate` is proved to match it exactly. Its precedence rule is stated for these shapes:
  - the fold of the slots (`Evaluator.FoldIsLeftFold`);
  - chains of numerals of one level at levels 0, 1 and 3, evaluated at that level (`Chains.LevelChainIsLeftFold`): sums at level 0, products at level 1 and powers at level 3;
  - chains of numerals joined by `*`, `/`, `%` and `^` at level 0, which group to the right (`Precedence.TightChainIsRightFold`);
  - a sum whose last term is a product (`Precedence.SumWithProduct`);
  - a group `(x)` without nested parentheses, which restarts at level 0 (`Precedence.GroupRestarts`), and such a group times a numeral (`Precedence.GroupTimesNumeral`, `Precedence.GroupedSumTimes`).
  Not stated: a product as a term before a `+` or `-`, sums whose last term mixes `/`, `%` or `^`, division chains evaluated at level 2, shift chains, nested groups, negated groups, and function calls.
- Variables.ReplaceAll: the source's replacement loop has no bound and never ends when a name occurs in its own wrapped value, or when a name is empty. The model allows one replacement more than the text's length.
  - Hitting that budget is reported as a hang: `VarsHang`, or the `exhausted` flag in `Funkii.Calc.ParseVars` and `Funkii.Calc.Syntax`.
  - `Variables.BudgetSuffices` shows the budget is never hit for names without parentheses that are absent from their values.
  - `Variables.NameInValueDiverges` shows the source's loop never ends for a name inside its own value.
  - Other cases may hit the budget where the source would go on. The hang is then reported early, not a wrong text.
- Funkii.Calc.Expand: the source's single `for` loop, which restarts with `i=-1` after each pass, is modelled as five replacing passes followed by a guard pass. The value is wrapped in parentheses when it is substituted rather than when it is split off; the text is the same.
- Funkii.Calc.Fib: takes a whole number. The source takes a `long double` but is only ever called with `floor(mResult)`. F(n) is exact here, not rounded to `long double`.
- Uninitialised storage is read as 0 or as a stale value:
  - `calculate`'s `oper_flags`/`is_f` slots, which are stack garbage in the source, are read as 0.
  - `type[]` in `checkandcompare` is only read where it was written.
  - With no comparator, `mCompare[0]` is read as the value an earlier comparison left (`stale`).
- `checkandcompare` fills the comparison arrays as follows:
  - With 1000 comparators it writes `mCompRes[1000]`, one past the declared array. The model's `compRes` has 1001 entries so that this write lands somewhere defined.
  - `mCompOutputRes` is cleared but never filled, so it is not modelled.
- Exponent-flag branches of `calculate`'s scanner: `is_e` is never raised in `calculate`, so they are unreachable and not modelled.
- Formatting.Format: requires a nonempty input. The source reads `input[0]` unconditionally, and every caller formats a printed number, which is never empty.
