# Osmium kernel in Dafny

A model of the kernel of Osmium, a Mathematica-style term-rewriting
interpreter written in C#. The model covers these pieces:

- **Values.** The value tree of symbols, strings, numbers and expressions, with its structural equality and `AtomHead`.
- **Numbers.** The exact numeric tower: BigInteger integers, reduced rationals, and complex numbers with exact parts. It includes type promotion and normalised equality.
- **Symbols.** The symbol record and its attribute flags.
- **The engine's symbol table.** Name validity, context resolution and interning.
- **The pattern compiler and the backtracking matcher.** Blank, BlankSequence, BlankNullSequence, named, literal, condition and expression patterns.
- **Rule application and substitution.**
- **The evaluator.** One rewrite step covers hold attributes, `Sequence`/Flat splicing, up-values, up-hooks, down-values, the down-hook and own-values. The outer loop runs on fuel.
- **The built-in hooks.** `Set`, `SetDelayed`, `And`, `Append`, `Apply`, `Plus` and `Times`.
- **The listener's value builders.** The parse-tree listener's value stack and its builders for blanks, string literals, `#`/`%` forms, numbers, comparison chains, division and negation.

Everything is immutable.

- **The symbol table** is a map from full names to symbol records, passed explicitly.
- **An exception** is a `Fault` in a `Result`.
- **A lazy C# enumeration of matches** is a `Stream`. It holds the items a consumer pulls in order, then either a normal end or the exception that the next pull would throw.

Four places where the code does something its authors evidently did not intend are modelled twice. The `Build` flag picks one of the two forms:

- `AsWritten` is exactly the code;
- `Corrected` is the intended behaviour, which carries the proved properties.

See "Findings".

| file | module | what it models |
|---|---|---|
| `wrappers.dfy` | Wrappers | `Option`, `Result`, the exception kinds, the `Build` flag |
| `arith.dfy` | Arith | truncating division, `RationalValue.GCD`, the private `IntegerValue.Pow` loop |
| `numbers.dfy` | Numbers | IntegerValue, RationalValue, ComplexValue, NumberValue, NumericOperations promotion |
| `values.dfy` | Values | Value, AtomicValue, ExpressionValue, StringValue |
| `symbols.dfy` | Symbols | Symbol, SymbolAttributes, the hook catalogue |
| `patterns.dfy` | Patterns | the pattern classes and `CompilePattern` |
| `matcher.dfy` | Matcher | `Match`/`MatchSequence` of every class, MatchContext, MatchResult, PatternMatching |
| `matcher_props.dfy` | MatcherProps | properties of the matcher, findings 1 and 2 |
| `engine.dfy` | Engines | OsmiumEngine's symbol table and name resolution, `SystemSymbols.Init` |
| `builtins.dfy` | Builtins | `Append`, `Apply`, `Plus`/`Times` folding, the older `Plus` |
| `evaluator.dfy` | Evaluation | Evaluator, `Set`/`SetDelayed`/`DoSet`, `And` |
| `evaluator_props.dfy` | EvaluationProps | properties of the evaluator and the hooks |
| `listener.dfy` | Listener | ExprBuildListener's value stack and value builders |

## Model

| member | source | states |
|---|---|---|
| Arith.TruncDiv | Osmium.Engine/Values/Numerics/RationalValue.cs:57 | BigInteger division rounds toward zero: the magnitude of the quotient is the quotient of the magnitudes, and a nonzero quotient is negative exactly when the operand signs differ |
| Arith.GcdIsGreatestCommonDivisor | Osmium.Engine/Values/Numerics/RationalValue.cs:35-48 | the answer of the GCD loop is 0 only for (0, 0), divides both operands, and is divisible by every common divisor |
| Arith.GcdWithZero | Osmium.Engine/Values/Numerics/RationalValue.cs:47 | GCD(a, 0) and GCD(0, a) are both the absolute value of a |
| Arith.GcdOfSigned | Osmium.Engine/Values/Numerics/RationalValue.cs:37-38 | taking absolute values first, the loop computes the greatest common divisor of signed operands |
| Arith.GcdLoop | Osmium.Engine/Values/Numerics/RationalValue.cs:35-48 | the imperative loop terminates with the greatest common divisor of the absolute values of a and b, and with 0 exactly when both are 0 |
| Arith.ReducedIsCoprime | Osmium.Engine/Values/Numerics/RationalValue.cs:19-24 | dividing both operands by their gcd leaves a coprime pair that still multiplies back to the operands |
| Arith.PowAsWrittenCounterexample | Osmium.Engine/Values/Numerics/IntegerValue.cs:73-84 | the private Pow as written gives Pow(2, 2) = 2 and Pow(3, 6) ≠ 3^6 |
| Arith.PowSqLoopIsPower | Osmium.Engine/Values/Numerics/IntegerValue.cs:73-84 | the loop invariant of the corrected square-and-multiply: from any state (base b, remaining exponent e, result r) the loop ends with r·b^e |
| Arith.PowSqIsPower | Osmium.Engine/Values/Numerics/IntegerValue.cs:73-84 | the corrected loop, which squares the base while consuming the exponent's low bits, started with result 1 returns a^exp |
| Numbers.MakeRational | Osmium.Engine/Values/Numerics/RationalValue.cs:11-27 | the constructor fails (its GCD is 0, so it divides by zero) exactly for 0/0; otherwise the result is cross-multiplication equal to n/d, has a non-negative denominator (positive when d ≠ 0) and is reduced |
| Numbers.IntegerAsRational | Osmium.Engine/Values/Numerics/IntegerValue.cs:30-31 | converting v to a rational gives v/1, already reduced |
| Numbers.NormalizeExact | Osmium.Engine/Values/Numerics/RationalValue.cs:79-85 | a rational with denominator 1 becomes an integer; any other rational and every integer are kept |
| Numbers.Normalize | Osmium.Engine/Values/Numerics/ComplexValue.cs:43-50 | a complex survives normalisation only with a nonzero imaginary part; exact numbers stay exact |
| Numbers.NumberEqIsNormalFormEquality | Osmium.Engine/Values/NumberValue.cs:28-31 | two numbers are equal exactly when their normal forms coincide |
| Numbers.NormalizeIdempotent | Osmium.Engine/Values/Numerics/ComplexValue.cs:43-50 | normalising twice is normalising once |
| Numbers.NumberEqIsEquivalence | Osmium.Engine/Values/NumberValue.cs:28-38 | numeric equality is reflexive, symmetric and transitive |
| Numbers.ConvertTo | Osmium.Engine/Values/Numerics/IntegerValue.cs:24-39 | converting to one's own type is the identity; converting upward always succeeds and gives the target type; an integer n becomes n/1 and any exact number x becomes x + 0i; a rational n/d becomes the truncated quotient, or throws DivideByZero when d is 0; a complex number converted down is its real part converted |
| Numbers.ConvertUpAndBack | Osmium.Engine/Values/Numerics/RationalValue.cs:52-67 | converting an exact number up the tower and back again gives the same number |
| Numbers.PromoteToComplex | Osmium.Engine/Values/Numerics/ComplexValue.cs:17-30 | an exact operand meeting a complex one is paired with a zero imaginary part, on either side |
| Numbers.Promote | Osmium.Engine/Values/Numerics/NumericOperations.cs:35-49 | after promotion both operands have the higher of the two ranks; an operand already of that rank is untouched |
| Numbers.Neg | Osmium.Engine/Values/Numerics/ComplexValue.cs:32-35 | negation keeps the number's type, and a complex number is negated part by part |
| Numbers.NegExact | Osmium.Engine/Values/Numerics/RationalValue.cs:69-72 | an integer n becomes -n; a rational n/d becomes (-n)/d with the same, unreduced denominator |
| Numbers.NegDenotes | Osmium.Engine/Values/Numerics/IntegerValue.cs:41-44 | if x denotes a/b then its negation denotes -a/b |
| Numbers.AddNegIsZero | Osmium.Engine/Values/Numerics/RationalValue.cs:69-72 | a well-formed number plus its negation never faults and is zero |
| Numbers.ComplexAddNegIsZero | Osmium.Engine/Values/Numerics/ComplexValue.cs:32-35 | a complex number plus its negation has both parts zero |
| Numbers.AddDenotes | Osmium.Engine/Values/Numerics/RationalValue.cs:97 | addition respects the values: x = a/b and y = c/d give x + y = (ad + cb)/(bd) |
| Numbers.ComplexAddIsComponentwise | Osmium.Engine/Values/Numerics/ComplexValue.cs:62-65 | with well-formed parts, complex addition never faults; the real part denotes ar + br and the imaginary part ai + bi |
| Numbers.ComplexAddRealPart | Osmium.Engine/Values/Numerics/ComplexValue.cs:62-65 | with well-formed parts, the real part of a complex sum denotes ar + br |
| Numbers.ComplexAddImagPart | Osmium.Engine/Values/Numerics/ComplexValue.cs:62-65 | with well-formed parts, the imaginary part of a complex sum denotes ai + bi |
| Numbers.ComplexMulIsProduct | Osmium.Engine/Values/Numerics/ComplexValue.cs:67-70 | with well-formed parts, complex multiplication never faults; the real part denotes ar·br − ai·bi and the imaginary part ar·bi + ai·br |
| Numbers.DiffDenotes | Osmium.Engine/Values/Numerics/ComplexValue.cs:69 | adding the negation, as the complex product does, denotes the difference a/b − c/d |
| Numbers.Add | Osmium.Engine/Values/Numerics/NumericOperations.cs:51 | the sum of two exact numbers is exact |
| Numbers.Mul | Osmium.Engine/Values/Numerics/NumericOperations.cs:52 | the product of two exact numbers is exact |
| Numbers.Inv | Osmium.Engine/Values/Numerics/IntegerValue.cs:46-53 | the inverse of an exact number is exact |
| Numbers.IntPow | Osmium.Engine/Values/Numerics/IntegerValue.cs:86-98 | corrected, a positive exponent gives a^b; a negative one gives a rational that is the reciprocal of a^(-b); exponent 0 gives 1 |
| Numbers.PowLoop | Osmium.Engine/Values/Numerics/IntegerValue.cs:73-84 | corrected, the private Pow returns the reference power a^e |
| Numbers.NormalizeExactKeepsValue | Osmium.Engine/Values/Numerics/RationalValue.cs:79-85 | normalising keeps well-formedness and the rational value |
| Numbers.AddExactIsSum | Osmium.Engine/Values/Numerics/RationalValue.cs:97 | on well-formed operands exact addition never faults and its result denotes the rational sum |
| Numbers.MulExactIsProduct | Osmium.Engine/Values/Numerics/RationalValue.cs:98 | on well-formed operands exact multiplication never faults and its result denotes the rational product |
| Numbers.InvExactIsReciprocal | Osmium.Engine/Values/Numerics/RationalValue.cs:74-77 | a well-formed nonzero number has a well-formed inverse whose product with it is 1 |
| Numbers.InvOfZeroIsOneOverZero | Osmium.Engine/Values/Numerics/IntegerValue.cs:52 | inverting integer 0 does not throw: it builds the rational 1/0 |
| Numbers.NegInvolution | Osmium.Engine/Values/Numerics/ComplexValue.cs:32-35 | Neg(Neg(x)) = x, and negation keeps the type |
| Numbers.SubUndoesAdd | Osmium.Engine/Values/NumberValue.cs:45-46 | with `-` defined as `+ Neg`, (x + y) - y has the value of x |
| Values.AtomHead | Osmium.Engine/Values/AtomicValue.cs:6 | the AtomHead of any value is an atom |
| Values.HeadOf | Osmium.Engine/Values/ExpressionValue.cs:13 | an expression's head is its stored head; an atom's head is a symbol |
| Values.ValueEqIsCanonEquality | Osmium.Engine/Values/ExpressionValue.cs:25-35 | value equality holds exactly when the canonical forms (numbers normalised) are identical |
| Values.ValueEqIsEquivalence | Osmium.Engine/Values/ExpressionValue.cs:30-35 | Equals is reflexive, symmetric and transitive |
| Values.ExpressionEquality | Osmium.Engine/Values/ExpressionValue.cs:25-28 | two expressions are equal iff they have equal heads, equal part counts and pairwise-equal parts |
| Values.StringEquality | Osmium.Engine/Values/StringValue.cs:18-28 | a string value equals exactly the string value with the same text |
| Values.NumberNeverEqualsNonNumber | Osmium.Engine/Values/NumberValue.cs:33-38 | a number is never equal to a non-number, in either order |
| Values.AtomHeadIsLeftmostAtom | Osmium.Engine/Values/ExpressionValue.cs:22 | an expression's AtomHead is its head's AtomHead; an atom's is itself; AtomHead is idempotent |
| Values.ReplaceChar | Osmium.Engine/Values/StringValue.cs:37 | `string.Replace` removes every occurrence of the character when the replacement lacks it, and introduces only characters from the input or the replacement |
| Values.Quote | Osmium.Engine/Values/StringValue.cs:35-38 | ToString is the text with each character escaped, wrapped in double quotes |
| Values.EscapeThenQuote | Osmium.Engine/Values/StringValue.cs:37 | escaping backslashes first and quotes second equals escaping each character on its own |
| Symbols.FlagsAreDistinctBits | Osmium.Engine/Symbol.cs:13-35 | the 19 attribute flags are bits 0..18, pairwise disjoint, so the attribute set is a bitset |
| Symbols.NewSymbol | Osmium.Engine/Symbol.cs:41-58 | a fresh symbol has the given full name, empty own/up/down rule lists, no hooks and no attribute flag set |
| Symbols.ToValue | Osmium.Engine/Symbol.cs:60-63 | the symbol's value is an atom that is its own AtomHead, with head `Symbol` |
| Symbols.ToValueIdentity | Osmium.Engine/Symbol.cs:54-63 | two symbol values are equal exactly when their records have the same full name |
| Patterns.Compile | Osmium.Engine/Patterns/PatternMatching.cs:23-85 | compiling never builds a condition; an atom compiles to itself as a literal; a literal always stands for the compiled value |
| Patterns.CompileForm | Osmium.Engine/Patterns/PatternMatching.cs:35-71 | a recognised pattern form compiles to a pattern class, never to a literal |
| Patterns.CompileLiteralIffNoPatternForm | Osmium.Engine/Patterns/PatternMatching.cs:78-84 | a value compiles to a literal exactly when it contains no pattern form, and then to itself |
| Patterns.CompilePatternForms | Osmium.Engine/Patterns/PatternMatching.cs:35-71 | `Blank[]`, `Blank[h]`, `BlankSequence[h]`, `BlankNullSequence[]` and `Pattern[s, p]` compile to their classes, with isNull only for BlankNullSequence |
| Matcher.MapItems | Osmium.Engine/Patterns/PatternClasses/NamedPattern.cs:20 | a `Select` yields the images of a prefix of the input, and stops exactly at the first element whose step throws |
| Matcher.FilterItems | Osmium.Engine/Patterns/PatternClasses/ConditionPattern.cs:24 | a `Where` keeps exactly the elements that pass |
| Matcher.WithCapture | Osmium.Engine/Patterns/MatchContext.cs:26-29 | binding fails exactly when the name is already bound; otherwise the name maps to the values and every other capture is unchanged |
| Matcher.ToSingle | Osmium.Engine/Patterns/PatternMatching.cs:128-136 | a singleton gives its element; any other list gives `Sequence[...]` of it |
| Matcher.IsMatch | Osmium.Engine/Patterns/PatternMatching.cs:18-21 | the answer is true exactly when the compiled pattern yields a match from an empty context |
| MatcherProps.MatchConsumesValue | Osmium.Engine/Patterns/PatternClasses/BlankPattern.cs:15-21 | every match of any pattern consumes exactly the matched value |
| MatcherProps.ExprMatchesConsumeValue | Osmium.Engine/Patterns/PatternClasses/ExprPattern.cs:25-30 | the value an expression pattern reports is the matched expression |
| MatcherProps.MatchSeqSplitsInput | Osmium.Engine/Patterns/PatternClasses/BlankSequencePattern.cs:26-42 | every split a MatchSequence yields is the consumed group followed by the remainder, which together give the input |
| MatcherProps.PrefixesSplitInput | Osmium.Engine/Patterns/PatternClasses/BlankSequencePattern.cs:33-37 | each prefix split of the BlankSequence loop divides the input |
| MatcherProps.SequenceMatchConsumesAll | Osmium.Engine/Patterns/PatternMatching.cs:93-113 | every SequenceMatch success consumes the whole list of values |
| MatcherProps.SeqContinueConsumesAll | Osmium.Engine/Patterns/PatternMatching.cs:106-111 | the nested loops over the first pattern's splits only yield results consuming the whole list |
| MatcherProps.ExprPatternRebuildsValue | Osmium.Engine/Patterns/PatternClasses/ExprPattern.cs:20-31 | a non-expression gives no match; a match consumes exactly the matched expression |
| MatcherProps.BlankMatchesIffHead | Osmium.Engine/Patterns/PatternClasses/BlankPattern.cs:15-21 | a blank yields at most one match, present exactly when it has no head or its head equals the value's head, with the captures unchanged |
| MatcherProps.LiteralMatchesIffEqual | Osmium.Engine/Patterns/PatternClasses/LiteralPattern.cs:15-18 | a literal yields at most one match, present exactly when the literal equals the value, with the captures unchanged |
| MatcherProps.LiteralMatchesItself | Osmium.Engine/Patterns/PatternMatching.cs:81-82 | a value without pattern forms matches its own compiled pattern exactly once |
| MatcherProps.DefaultMatchSequence | Osmium.Engine/Patterns/PatternClasses/Pattern.cs:12-23 | an empty list yields nothing; otherwise the matches on the first value, in order, each with the rest of the list |
| MatcherProps.RunLength | Osmium.Engine/Patterns/PatternClasses/BlankSequencePattern.cs:33-40 | the run is the longest stretch whose elements all pass the head test, ended by the first element that fails it |
| MatcherProps.PrefixesAreTheRun | Osmium.Engine/Patterns/PatternClasses/BlankSequencePattern.cs:33-40 | the loop started at position i yields one split per element of the run; split k (from 0) consumes the values before position i+k+1 and leaves the rest |
| MatcherProps.BlankSequenceSplits | Osmium.Engine/Patterns/PatternClasses/BlankSequencePattern.cs:26-42 | BlankNullSequence first yields the empty split; then one split per run element; captures are never touched |
| MatcherProps.BlankSequenceLengthsIncrease | Osmium.Engine/Patterns/PatternClasses/BlankSequencePattern.cs:30-37 | consumed lengths strictly increase across results, and BlankSequence never yields an empty group |
| MatcherProps.NamedFollowsInner | Osmium.Engine/Patterns/PatternClasses/NamedPattern.cs:18-21 | each result is the inner result at the same position, with the same consumed group and the name newly bound to it; when no inner result already binds the name, there are as many results as inner ones and the same exception |
| MatcherProps.NamedSequenceFollowsInner | Osmium.Engine/Patterns/PatternClasses/NamedPattern.cs:23-29 | each split is the inner split at the same position, with the same remainder and consumed group and the name newly bound to that group |
| MatcherProps.ConditionFilters | Osmium.Engine/Patterns/PatternClasses/ConditionPattern.cs:21-25 | the results are exactly the inner results that pass the test, in their order, with the same exception |
| MatcherProps.ConditionSequenceFilters | Osmium.Engine/Patterns/PatternClasses/ConditionPattern.cs:27-30 | the splits are exactly the inner splits that pass the test, with the same exception |
| MatcherProps.ConcatLaws | Osmium.Engine/Patterns/MatchResult.cs:18-21 | Concat keeps the second context, joins the consumed groups in order with the lengths adding, and is associative |
| MatcherProps.IsMatchIffSomeMatch | Osmium.Engine/Patterns/PatternMatching.cs:18-21 | `Any()` is true on a first match, false on an empty normal end, and otherwise throws the enumeration's exception |
| MatcherProps.FindAndApplyRuleFirstMatch | Osmium.Engine/Patterns/PatternMatching.cs:115-126 | the answer is null exactly when no rule matches and nothing throws; otherwise it comes from the earliest matching rule's first match |
| MatcherProps.SequenceMatchResumeCounterexample | Osmium.Engine/Patterns/PatternMatching.cs:97-103 | as written `g[f[_], c]` against `g[f[a], d]` throws; corrected it is simply no match |
| MatcherProps.ResumeInner | Osmium.Engine/Patterns/PatternMatching.cs:97-103 | `f[_]` on `f[a]` yields one match, then (as written) the resume exception |
| MatcherProps.ResumeOuter | Osmium.Engine/Patterns/PatternMatching.cs:106-111 | the outer loop pulls the inner enumeration again after a failed continuation, which surfaces the exception |
| MatcherProps.CorrectedMatchFaults | Osmium.Engine/Patterns/PatternMatching.cs:87-91 | corrected, a match enumeration can throw only on a repeated pattern name |
| MatcherProps.CorrectedExprMatchesFaults | Osmium.Engine/Patterns/PatternClasses/ExprPattern.cs:25-30 | corrected, an expression pattern throws only on a repeated pattern name |
| MatcherProps.CorrectedMatchSeqFaults | Osmium.Engine/Patterns/PatternClasses/Pattern.cs:12-23 | corrected, a MatchSequence throws only on a repeated pattern name |
| MatcherProps.CorrectedSequenceMatchFaults | Osmium.Engine/Patterns/PatternMatching.cs:93-113 | corrected, SequenceMatch throws only on a repeated pattern name |
| MatcherProps.CorrectedSeqContinueFaults | Osmium.Engine/Patterns/PatternMatching.cs:106-111 | corrected, the nested loops throw only on a repeated pattern name |
| MatcherProps.CorrectedIsMatchFaults | Osmium.Engine/Patterns/PatternMatching.cs:18-21 | corrected, IsMatch throws only on a repeated pattern name |
| MatcherProps.SymbolSubstituteCounterexample | Osmium.Engine/Patterns/PatternMatching.cs:142-146 | as written, substituting into `f[1]` with no captures gives `[1]`, the parts without the head; corrected it gives `[f[1]]` |
| MatcherProps.CorrectedSubstituteUnbound | Osmium.Engine/Patterns/PatternMatching.cs:138-155 | corrected, a value that mentions no bound symbol substitutes to itself, as a singleton |
| MatcherProps.CorrectedSubstituteBound | Osmium.Engine/Patterns/PatternMatching.cs:147-149 | a bound symbol becomes its capture |
| Engines.Lookup | Osmium.Engine/OsmiumEngine.cs:137-142 | the record under a name is the stored one, or a fresh symbol of that name |
| Engines.Store | Osmium.Engine/OsmiumEngine.cs:139-141 | storing adds exactly one key, keeps the contexts, and changes no other name's record |
| Engines.SplitOn | Osmium.Engine/OsmiumEngine.cs:170 | `Split` gives at least one piece, and no piece contains the separator |
| Engines.CheckSymbolName | Osmium.Engine/OsmiumEngine.cs:156-172 | the one-pass scan accepts exactly the names whose backtick segments are all non-empty, start with a letter or `$`, and continue with letters, digits or `$` |
| Engines.QualifiedNameValid | Osmium.Engine/OsmiumEngine.cs:156-172 | `ctx`name` is valid exactly when both segments are |
| Engines.TryGetSymbol | Osmium.Engine/OsmiumEngine.cs:144-154 | an invalid key throws; otherwise it returns the stored record if any, and adds nothing |
| Engines.GetSymbol | Osmium.Engine/OsmiumEngine.cs:137-142 | an invalid key throws; otherwise the key is in the table afterwards, at most that one key was added, as a fresh symbol, and existing records are unchanged |
| Engines.GetSymbolIn | Osmium.Engine/OsmiumEngine.cs:52-55 | the two-argument form interns the key `context + name` |
| Engines.FindInPath | Osmium.Engine/OsmiumEngine.cs:73-77 | a name found in the path is the first context entry holding it; nothing found means none of the entries holds it |
| Engines.Resolve | Osmium.Engine/OsmiumEngine.cs:57-81 | resolving interns exactly one name and leaves the contexts and every existing record unchanged |
| Engines.ResolveCurrentContext | Osmium.Engine/OsmiumEngine.cs:61-66 | a leading backtick means the key `Context + name[1..]` |
| Engines.ResolveQualified | Osmium.Engine/OsmiumEngine.cs:70 | a name with an inner backtick is its own key |
| Engines.ResolveBare | Osmium.Engine/OsmiumEngine.cs:73-80 | a bare name gives the first path context that has it; if no context has it, it is created in the current context |
| Engines.FindInPathFirst | Osmium.Engine/OsmiumEngine.cs:73-77 | the search returns the first entry that holds the name |
| Engines.ResolveIsInterned | Osmium.Engine/OsmiumEngine.cs:137-142 | resolving a name a second time gives the same symbol and adds nothing |
| Engines.FindInPathGrows | Osmium.Engine/OsmiumEngine.cs:73-77 | a search that found nothing cannot throw on a later table |
| Engines.FindInPathAfterInsert | Osmium.Engine/OsmiumEngine.cs:78-80 | after the name is created in the current context, the path search gives the same answer or finds the new key |
| Engines.NewEngine | Osmium.Engine/OsmiumEngine.cs:37-49 | a new engine, given the generated list of system names, has context `Global`` and path [`System``] and holds every name of that list under `System``; `Set` is HoldFirst, Protected and SequenceHold with its hook; `SetDelayed` is HoldAll, Protected and SequenceHold with its hook |
| Engines.SystemTable | Osmium.Engine/OsmiumEngine.cs:42 | the table the system symbols make holds `System`name` for every name of the list, each record stored under its own valid name |
| Engines.ResolveKernelName | Osmium.Engine/OsmiumEngine.cs:63-74 | in a new engine a bare name of the system list resolves to the `System`` symbol without changing the table |
| Engines.ResolveBlankIsSystem | Osmium.Engine.Test/ParserTests.cs:100-103 | `Blank` resolves to `System`Blank` in a new engine whose system list holds the kernel's own names, so `Blank[]` and `_` build the same value |
| Engines.KernelNamesSuffice | Osmium.Engine/OsmiumEngine.cs:42 | every name the kernel refers to, `Factorial2` included, is one valid segment of a symbol name, so a list made of them is one a new engine can start from |
| Engines.SetHoldAttributes | Osmium.Engine/SystemSymbols.cs:16-18 | `Set` holds only its first part, so its right-hand side gets evaluated; `SetDelayed` holds everything |
| Builtins.Append | Osmium.Engine/Implementations/ElementaryImplementations.cs:48-71 | the hook answers exactly for head `Append`, two parts and an expression first part, giving that expression with the second part added last and needMore true |
| Builtins.DoApply | Osmium.Engine/Implementations/ElementaryImplementations.cs:73-78 | an expression gets the new head and keeps its parts; an atom is kept |
| Builtins.Apply | Osmium.Engine/Implementations/ElementaryImplementations.cs:80-101 | with head `Apply` it answers exactly for two parts, always with needMore true |
| Builtins.ApplyForms | Osmium.Engine/Implementations/ElementaryImplementations.cs:82-95 | `Apply[f, g[a...]]` is `f[a...]`, `Apply[f, atom]` is the atom, the operator form agrees with the two-argument form, and `Apply[f]` alone gives null |
| Builtins.NonNumbers | Osmium.Engine/Implementations/NumericImplementations.cs:42-46 | the non-numbers are exactly the parts that are not numbers |
| Builtins.NumberCount | Osmium.Engine/Implementations/NumericImplementations.cs:48 | the number count and the non-number count add up to the part count |
| Builtins.FoldNumbers | Osmium.Engine/Implementations/NumericImplementations.cs:40-51 | the fold is empty only without numbers, and a single number is its own total |
| Builtins.NumericOp | Osmium.Engine/Implementations/NumericImplementations.cs:32-78 | when needMore is false, the answer is the unchanged expression |
| Builtins.NumericOpCases | Osmium.Engine/Implementations/NumericImplementations.cs:53-77 | an empty expression fails with a null result; all numbers give the total; no numbers leave the expression; a total equal to the identity is dropped; one number leaves the expression; otherwise the non-numbers are followed by the total |
| Builtins.NonNumbersConcat | Osmium.Engine/Implementations/NumericImplementations.cs:42-46 | the non-numbers keep their relative order |
| Builtins.SumFoldOfIntegers | Osmium.Engine/Values/Numerics/IntegerValue.cs:70 | on integers the addition fold is the integer sum |
| Builtins.ProductFoldOfIntegers | Osmium.Engine/Values/Numerics/IntegerValue.cs:71 | on integers the multiplication fold is the integer product |
| Builtins.PlusOfIntegers | Osmium.Engine/Implementations/NumericImplementations.cs:11-17 | `Plus` of integers alone is their sum |
| Builtins.TimesOfIntegers | Osmium.Engine/Implementations/NumericImplementations.cs:19-30 | `Times` of integers alone is their product |
| Builtins.TimesMinusOne | Osmium.Engine/Implementations/NumericImplementations.cs:24-27 | `Times[-1, n]` is the negated number |
| Builtins.PlusSingleTerm | Osmium.Engine/Implementations/NumericImplementations.cs:61-73 | `x + n` becomes `x` exactly when n equals 0, and is left alone otherwise |
| Builtins.CorrectedTimesSingleFactor | Osmium.Engine/Implementations/NumericImplementations.cs:29 | corrected, `x * n` becomes `x` exactly when n equals 1, and is left alone otherwise |
| Builtins.TimesZeroCounterexample | Osmium.Engine/Implementations/NumericImplementations.cs:29 | as written, `x * 0` becomes `x` while `x * 1` is left alone |
| Builtins.PlusSum | Osmium.Engine/Values/Numerics/NumericOperations.cs:54-81 | the older Plus answers null for another head and leaves a sum with fewer than two numbers alone |
| Builtins.PlusSumCases | Osmium.Engine/Values/Numerics/NumericOperations.cs:83-89 | the older Plus with two or more numbers gives the sum alone, or the non-numbers in order followed by the sum |
| Evaluation.EvolvesTransitive | Osmium.Engine/Evaluation/Evaluator.cs:136-164 | what an evaluation may change (only own- and down-values, never those of a Protected symbol) composes across steps |
| Evaluation.FlattenOne | Osmium.Engine/Evaluation/Evaluator.cs:121-134 | flattening one value leaves no `h[...]` element |
| Evaluation.FlattenAll | Osmium.Engine/Evaluation/Evaluator.cs:61-66 | after `SelectMany(FlattenHeads(h))` no part has head `h` |
| Evaluation.Rebuild | Osmium.Engine/Evaluation/Evaluator.cs:57-97 | the result keeps the head; HoldAllComplete keeps the parts; without HoldAllComplete, SequenceHold and Flat no part has head `Sequence`; with Flat and a symbol head no part has that head |
| Evaluation.DoSet | Osmium.Engine/Implementations/SetImplementations.cs:36-45 | a Protected symbol is left alone; otherwise the rule goes first in the chosen list, the rest of it keeps its order, and no other symbol changes |
| Evaluation.SetImpl | Osmium.Engine/Implementations/SetImplementations.cs:9-73 | `Set` answers `(rhs, false)` and `SetDelayed` `(Null, false)`; an atom that is not a symbol changes nothing; fewer than two parts, or an expression whose leftmost atom is not a symbol, throws |
| Evaluation.Evaluate | Osmium.Engine/Evaluation/Evaluator.cs:136-164 | strings and numbers evaluate to themselves and leave the engine alone; any evaluation only evolves the engine |
| Evaluation.EvaluateSymbol | Osmium.Engine/Evaluation/Evaluator.cs:166-180 | a symbol step never changes the engine, and a step that stops returns the symbol itself |
| Evaluation.EvaluateExpression | Osmium.Engine/Evaluation/Evaluator.cs:23-119 | an expression step only evolves the engine |
| Evaluation.EvaluateParts | Osmium.Engine/Evaluation/Evaluator.cs:45-53 | the parts come back in number, and each held part comes back as given |
| Evaluation.Dispatch | Osmium.Engine/Evaluation/Evaluator.cs:57-118 | a step that stops returns the rebuilt expression |
| Evaluation.UpHooks | Osmium.Engine/Evaluation/Evaluator.cs:84-92 | running the parts' up-hooks only evolves the engine |
| Evaluation.Down | Osmium.Engine/Evaluation/Evaluator.cs:104-118 | no symbol at the leftmost atom means no rewrite; a step that stops returns the expression |
| Evaluation.RunHook | Osmium.Engine/Symbol.cs:10-11 | a hook call only evolves the engine |
| Evaluation.AndLoop | Osmium.Engine/Implementations/ElementaryImplementations.cs:10-46 | `And` always answers, with needMore false |
| EvaluationProps.FlattenConcat | Osmium.Engine/Evaluation/Evaluator.cs:121-134 | flattening works element by element, so it keeps the left-to-right order |
| EvaluationProps.FlattenIdentity | Osmium.Engine/Evaluation/Evaluator.cs:121-134 | a list without `h[...]` elements is unchanged |
| EvaluationProps.FlattenIdempotent | Osmium.Engine/Evaluation/Evaluator.cs:121-134 | flattening twice is flattening once |
| EvaluationProps.FlattenSplices | Osmium.Engine/Evaluation/Evaluator.cs:125-128 | a nested `h[...]` is spliced in whole at its place |
| EvaluationProps.HeldPartsAreKept | Osmium.Engine/Evaluation/Evaluator.cs:47-53 | held parts come back as given, and the engine is unchanged |
| EvaluationProps.HoldPolicy | Osmium.Engine/Evaluation/Evaluator.cs:30-43 | HoldAll and HoldAllComplete hold every part, HoldFirst part 0, HoldRest the others; without them every part is evaluated |
| EvaluationProps.HoldAllKeepsParts | Osmium.Engine/Evaluation/Evaluator.cs:33-37 | under HoldAll or HoldAllComplete the parts reach the dispatch as given |
| EvaluationProps.UpValuesNone | Osmium.Engine/Evaluation/Evaluator.cs:74-82 | the up-value stage finds nothing exactly when no part's symbol has a matching up-value |
| EvaluationProps.UpValuesLeftmost | Osmium.Engine/Evaluation/Evaluator.cs:74-82 | the leftmost part with a matching up-value decides |
| EvaluationProps.UpValuePreemptsHooks | Osmium.Engine/Evaluation/Evaluator.cs:74-92 | an up-value hit is the step's answer, before any up-hook, down-value or down-hook |
| EvaluationProps.HoldAllCompleteGoesDown | Osmium.Engine/Evaluation/Evaluator.cs:94-97 | HoldAllComplete skips splicing, up-values and up-hooks, but down-values are still tried |
| EvaluationProps.DownValueBeforeHook | Osmium.Engine/Evaluation/Evaluator.cs:108-116 | a matching down-value comes before the down-hook |
| EvaluationProps.NothingFires | Osmium.Engine/Evaluation/Evaluator.cs:118 | when no rule or hook fires, the rebuilt expression is returned with needMore false |
| EvaluationProps.NoUpHooks | Osmium.Engine/Evaluation/Evaluator.cs:84-92 | without up-hooks the stage answers nothing and changes nothing |
| EvaluationProps.InertSymbol | Osmium.Engine/Evaluation/Evaluator.cs:175-179 | a symbol without own-values or own-hook evaluates to itself |
| EvaluationProps.SetThenEvaluateSymbol | Osmium.Engine/Implementations/SetImplementations.cs:25-26 | after `x = rhs` on an unprotected x, the rule is first among x's own-values and x evaluates in one step to rhs |
| EvaluationProps.SetThenEvaluateSymbolAsWritten | Osmium.Engine/Patterns/PatternMatching.cs:142-146 | as written, after `x = f[1]` the symbol x evaluates to `1` |
| EvaluationProps.SetThenDown | Osmium.Engine/Implementations/SetImplementations.cs:21-23 | after `lhs = rhs` with a literal lhs, the down stage rewrites that lhs to rhs |
| EvaluationProps.NewEngineIsInitial | Osmium.Engine/SystemSymbols.cs:13-19 | a new engine carries the Set and SetDelayed records that Init installs |
| EvaluationProps.DownRunsSetHook | Osmium.Engine/SystemSymbols.cs:15-17 | the down stage of `Set[...]` and `SetDelayed[...]` runs their hooks |
| EvaluationProps.SetStoresValue | Osmium.Engine/Implementations/SetImplementations.cs:47-73 | `x = rhs` evaluates rhs first and stores its value (copy by value), answering that value |
| EvaluationProps.SetDelayedStoresExpression | Osmium.Engine/Implementations/SetImplementations.cs:9-34 | `x := rhs` stores rhs unevaluated and answers Null |
| EvaluationProps.AndOfInertParts | Osmium.Engine/Implementations/ElementaryImplementations.cs:16-45 | on values that evaluate to themselves, `And` gives `False` if any is False, otherwise `True`, the one remaining value, or `And` of the rest |
| EvaluationProps.AndLoopOfInert | Osmium.Engine/Implementations/ElementaryImplementations.cs:16-45 | from position i: a `False` among the remaining parts gives `False`; otherwise the accumulated parts and the remaining non-`True` parts are closed into `True`, the single value, or `And[...]` |
| EvaluationProps.AndShortCircuits | Osmium.Engine/Implementations/ElementaryImplementations.cs:21-24 | `And` stops at the first part that evaluates to False; later parts are never evaluated |
| Listener.Push | Osmium.Engine/Parser/ExprBuildListener.cs:35-38 | push appends on top and keeps the rest |
| Listener.PopMany | Osmium.Engine/Parser/ExprBuildListener.cs:20-26 | popping n items succeeds exactly when 0 ≤ n ≤ size, returns the top n in push order and leaves the rest |
| Listener.PopOne | Osmium.Engine/Parser/ExprBuildListener.cs:28-33 | popping succeeds exactly on a non-empty stack, giving the top item and the rest |
| Listener.GetValue | Osmium.Engine/Parser/ExprBuildListener.cs:15-18 | the result is available exactly when the stack holds one item |
| Listener.PushThenPop | Osmium.Engine/Parser/ExprBuildListener.cs:28-38 | pop undoes push |
| Listener.PopAfterPushes | Osmium.Engine/Parser/ExprBuildListener.cs:20-26 | popping the n values just pushed gives them back in order |
| Listener.GetValueOfPushed | Osmium.Engine/Parser/ExprBuildListener.cs:15-18 | the single pushed value is the result |
| Listener.Construct | Osmium.Engine/Parser/ExprBuildListener.cs:260-265 | building needs count items, and replaces them by one |
| Listener.ConstructAfterPushes | Osmium.Engine/Parser/ExprBuildListener.cs:260-265 | the pushed values become the parts of `sym[...]`, in order |
| Listener.FunctionApplication | Osmium.Engine/Parser/ExprBuildListener.cs:236-242 | applying needs the arguments and a head below them |
| Listener.FunctionApplicationAfterPushes | Osmium.Engine/Parser/ExprBuildListener.cs:236-242 | the head and arguments pushed become `h[args...]` |
| Listener.Division | Osmium.Engine/Parser/ExprBuildListener.cs:381-393 | division needs two operands |
| Listener.DivisionAfterPushes | Osmium.Engine/Parser/ExprBuildListener.cs:381-393 | `a/b` builds `Times[a, Power[b, -1]]` |
| Listener.Negate | Osmium.Engine/Parser/ExprBuildListener.cs:415-419 | negation needs one operand |
| Listener.NegateAfterPush | Osmium.Engine/Parser/ExprBuildListener.cs:415-419 | `-v` builds `Times[-1, v]` |
| Listener.NegatedNumberEvaluates | Osmium.Engine/Parser/ExprBuildListener.cs:363-368 | the `Times[-1, n]` built for a negative number literal folds to the negated number |
| Listener.PrefixPlusMinus | Osmium.Engine/Parser/ExprBuildListener.cs:359-379 | prefix `+` changes nothing, `-` negates, `±` and `∓` wrap one operand |
| Listener.OpSymbol | Osmium.Engine/Parser/ExprBuildListener.cs:657-691 | every known operator maps to a symbol in the `System`` context |
| Listener.ComparisonOperators | Osmium.Engine/Parser/ExprBuildListener.cs:669-674 | the six comparison operators map to Equal, Unequal, Greater, Less, GreaterEqual and LessEqual |
| Listener.AssignmentOperators | Osmium.Engine/Parser/ExprBuildListener.cs:681-682 | `=` maps to the Set symbol and `:=` to SetDelayed |
| Listener.UnknownOperator | Osmium.Engine/Parser/ExprBuildListener.cs:687-689 | any other operator has no symbol |
| Listener.InterleaveLayout | Osmium.Engine/Parser/ExprBuildListener.cs:435-446 | the `Inequality` parts have length 2n-1, operands at even positions and operator symbols at odd ones |
| Listener.OpNames | Osmium.Engine/Parser/ExprBuildListener.cs:427 | with every operator known, the chain's symbols are the operators' symbols, one per operator and in order |
| Listener.Comparison | Osmium.Engine/Parser/ExprBuildListener.cs:421-448 | no operators change nothing; an unknown operator or too few operands fails |
| Listener.ComparisonSameOperator | Osmium.Engine/Parser/ExprBuildListener.cs:429-432 | a chain of one operator builds `op[operands...]` |
| Listener.ComparisonMixed | Osmium.Engine/Parser/ExprBuildListener.cs:433-447 | a mixed chain builds `Inequality` of alternating operands and operator symbols |
| Listener.ParseInt32 | Osmium.Engine/Parser/ExprBuildListener.cs:754 | `int.Parse` gives a 32-bit value or fails with a format or overflow error; the empty text is a format error |
| Listener.CreateNumber | Osmium.Engine/Parser/ExprBuildListener.cs:750-755 | a literal with a `.` is the not-modelled real case; any success is an integer in the 32-bit range |
| Listener.ParseShowInt | Osmium.Engine/Parser/ExprBuildListener.cs:754 | parsing the decimal text of n gives n inside the 32-bit range and overflows outside it |
| Listener.CreateNumberOfShowInt | Osmium.Engine/Parser/ExprBuildListener.cs:750-755 | the literal of a 32-bit integer builds that integer |
| Listener.OutForm | Osmium.Engine/Parser/ExprBuildListener.cs:120-130 | a `%` form always builds an `Out` expression |
| Listener.SlotForm | Osmium.Engine/Parser/ExprBuildListener.cs:132-147 | a `#` form always builds `Slot` or `SlotSequence` of one argument |
| Listener.OutForms | Osmium.Engine/Parser/ExprBuildListener.cs:120-130 | `%` is `Out[]`, k ≥ 2 percent signs are `Out[-k]`, `%n` is `Out[n]` |
| Listener.SlotForms | Osmium.Engine/Parser/ExprBuildListener.cs:132-147 | `#` is `Slot[1]`, `##` is `SlotSequence[1]`, `#n` and `##n` carry n, `#name` is `Slot["name"]` |
| Listener.NumberedSlot | Osmium.Engine/Parser/ExprBuildListener.cs:143-145 | `#n` is `Slot[n]` for every n up to the 32-bit maximum |
| Listener.NumberedSlotSequence | Osmium.Engine/Parser/ExprBuildListener.cs:139-141 | `##n` is `SlotSequence[n]` for every n up to the 32-bit maximum |
| Listener.Unescape | Osmium.Engine/Parser/ExprBuildListener.cs:704-745 | text without backslashes is kept; unescaping never lengthens; the only exception is an index out of range |
| Listener.CreateString | Osmium.Engine/Parser/ExprBuildListener.cs:698-748 | a literal shorter than two characters fails; any success is a string value |
| Listener.UnescapeEscaped | Osmium.Engine/Parser/ExprBuildListener.cs:704-745 | unescaping the escaped text gives the text back |
| Listener.CreateStringOfQuote | Osmium.Engine/Values/StringValue.cs:35-38 | the listener reads `ToString` of any string value back to that value |
| Listener.UnescapeStep | Osmium.Engine/Parser/ExprBuildListener.cs:706-739 | `\\`, `\ ` and `\"` give the character, `\f \b \t \n \r` the control characters, any other escape keeps its backslash |
| Listener.OtherEscapes | Osmium.Engine/Parser/ExprBuildListener.cs:706-745 | `\ ` is a space, an unknown escape is kept literally, and a lone trailing backslash fails |
| Listener.CreateSymbol | Osmium.Engine/Parser/ExprBuildListener.cs:693-696 | a symbol literal resolves and interns its name, failing exactly when resolution fails |
| Listener.IndexOf | Osmium.Engine/Parser/ExprBuildListener.cs:154 | `IndexOf` is the first position of the character, or -1 |
| Listener.LastIndexOf | Osmium.Engine/Parser/ExprBuildListener.cs:155 | `LastIndexOf` is the last position of the character, or -1 |
| Listener.BlankKind | Osmium.Engine/Parser/ExprBuildListener.cs:161-175 | runs of 1, 2 and 3 underscores are accepted, any other length throws |
| Listener.CreateBlank | Osmium.Engine/Parser/ExprBuildListener.cs:149-193 | a blank literal builds an expression and keeps the table well formed |
| Listener.WithHead | Osmium.Engine/Parser/ExprBuildListener.cs:177 | without a head the blank has no arguments; any success is an expression headed by the blank |
| Listener.Named | Osmium.Engine/Parser/ExprBuildListener.cs:179-185 | a name prefix wraps the blank as `Pattern[name, blank]` |
| Listener.CreateBlankLongRun | Osmium.Engine/Parser/ExprBuildListener.cs:172-174 | four or more underscores throw |
| Listener.CreateBlankAnonymous | Osmium.Engine/Parser/ExprBuildListener.cs:161-177 | `_`, `__` and `___` are `Blank[]`, `BlankSequence[]` and `BlankNullSequence[]` |
| Listener.CreateBlankOptional | Osmium.Engine/Parser/ExprBuildListener.cs:187-190 | a `.` suffix wraps the blank in `Optional` |
| Listener.CreateBlankHeaded | Osmium.Engine/Parser/ExprBuildListener.cs:177 | a suffix not starting with `.` becomes the blank's single head argument |
| Listener.CreateBlankNamed | Osmium.Engine/Parser/ExprBuildListener.cs:179-185 | a name followed by one to three underscores is `Pattern[x, kind[]]`, with x resolved in the engine |
| Listener.CreateBlankNamedHeaded | Osmium.Engine/Parser/ExprBuildListener.cs:177-185 | `x_h`, `x__h` and `x___h` are `Pattern[x, kind[h]]`; the head symbol is resolved first and the name in the engine that leaves, so both are interned |
| Listener.CreateBlankNamedOptional | Osmium.Engine/Parser/ExprBuildListener.cs:179-190 | `x_.` is `Optional[Pattern[x, Blank[]]]`, with the Optional outermost |
| Listener.CreateBlankWithoutUnderscore | Osmium.Engine/Parser/ExprBuildListener.cs:154-175 | a text without an underscore always throws |

## Left out

- Real numbers: `RealValue`, every `ConvertTo(Real)` and the real branch of `CreateNumber` are IEEE doubles. A number literal with a `.` gives the `NotModelled` fault.
- `RationalValue.Pow` throws NotImplemented; integer powers of rationals are not modelled.
- Hash codes (`GetHashCode`, `NormalHashCode`) are left out: the model compares values structurally and keeps no hash tables.
- The stale `NumberValue`/`IntegerValue`/`RationalValue` copies at the end of StringValue.cs are left out. The Numerics versions are modelled.
- IPattern.cs repeats the pattern classes of the PatternClasses folder. The model has one copy.
- Null arguments do not exist in the model, so the constructors' null checks (ExpressionValue, StringValue) have nothing to reject.
- Unicode: `char.IsLetter`, `char.IsLetterOrDigit` and `char.IsDigit` are approximated by ASCII letters and digits.
- Listener.ParseInt32: does not model `int.Parse`'s whitespace trimming, culture rules or other sign characters; only an optional `-`/`+` and ASCII digits.
- The ANTLR parser (WolframLanguageParser.cs) and the context navigation of the listener's `Exit*` methods are left out: the grammar is not part of this model. The builders they call are modelled on the value stack.
- The other `Exit*` handlers are left out: message names, parts, increments, rules, `Put`, compound expressions and the like. They are one-line `Construct` calls of their operator symbol, which `Listener.Construct` covers.
- `GetSymbolForOp`'s `Debug.Fail` for an unknown operator is modelled as its `null` return. Using that symbol then fails as a null dereference.
- The generated part of `SystemSymbols`, which declares one property per built-in symbol, is not part of this model. `Engines.NewEngine` therefore takes that list of names as a parameter and requires only that each is one valid segment of a symbol name: a letter or `$` first, then letters, digits or `$`. The names the modelled code and ExprBuildListener use are listed in `Engines.GroupNames`, and `Engines.CoversKernel` says a list contains them all.
- Program.cs (the console loop), the engine's `Line` counter, `Parse`/`Evaluate(string)` and EngineExtensions.cs are left out: they are I/O and convenience wrappers.
- Evaluation.Evaluate: the loop takes a fuel budget. Its `IterationLimit` test does nothing, so a non-terminating rewrite is the `OutOfFuel` fault instead of a hang.
- Evaluation.RunHook: a hook's needMore flag is ignored, and a rewrite by a hook always continues. This follows the evaluator, which always continues, rather than the `(Value, bool)?` type of the callback.
- Native hooks other than the kernel's builtins are given by a table of their answers. Their code cannot be seen.
- Condition tests: the matcher takes the test as a parameter. The compiler never builds a condition pattern, so the evaluator passes a constant test.
- Matcher.WithCapture: a second capture of a name always throws. `ImmutableDictionary.Add` would accept a second add of the very same array instance, but captured groups in the model have no object identity.
- The older `SetImplementations` inside SystemSymbols.cs (lines 22-91) makes the same changes as Implementations/SetImplementations.cs. It differs in returning the bare value and in matching a `SymbolValue` instead of a `Symbol`. Only the newer one is modelled.
- The source mixes two revisions of the symbol type. Implementations/SetImplementations.cs matches `case Symbol` on a value, and `ExpressionValue.SymbolHead` is `AtomHead as Symbol`, while Symbol.cs keeps a separate `ToValue`. The model reads both as the symbol value `Sym(name)`. A `SymbolHead` that is not a symbol is null, and dereferencing it is the `NullReference` fault.
- Evaluation.Rebuild: the guarantee that no part has head `Sequence` is stated for the case without Flat. With Flat, flattening by the head symbol runs second, and the model states that guarantee instead.
- Builtins.TimesOfIntegers: excludes `Times[-1, n]`, which takes the negation shortcut and is covered by Builtins.TimesMinusOne.
- Listener.OtherEscapes: the control escapes `\f \b \t \n \r` are stated once each in Listener.UnescapeStep, not as whole literals.

## Findings

| source | as written | input that shows it | evidently intended | confidence | as-written member | corrected member |
|---|---|---|---|---|---|---|
| Osmium.Engine/Patterns/PatternMatching.cs:97-103 | after the success on no patterns and no values there is no `yield break`, so resuming runs into `First()` of the empty pattern list, which throws | `IsMatch(g[f[_], c], g[f[a], d])`: the outer pattern resumes the inner `f[_]` enumeration after `c` fails on `d` | the enumeration ends after its one success, and the answer is "no match" | not executed | MatcherProps.SequenceMatchResumeCounterexample | MatcherProps.CorrectedIsMatchFaults |
| Osmium.Engine/Patterns/PatternMatching.cs:142-146 | the expression branch returns the rebuilt expression as an `IEnumerable<Value>`, which enumerates its parts, so the head is lost | after `x = f[1]`, evaluating `x` gives `1` | the rebuilt expression as a single value | not executed | MatcherProps.SymbolSubstituteCounterexample | MatcherProps.CorrectedSubstituteUnbound |
| Osmium.Engine/Implementations/NumericImplementations.cs:29 | `Times` passes `Zero` as the identity of multiplication | `Times[x, 0]` becomes `x`, while `Times[x, 1]` is left alone | identity `One` | not executed | Builtins.TimesZeroCounterexample | Builtins.CorrectedTimesSingleFactor |
| Osmium.Engine/Values/Numerics/IntegerValue.cs:73-84 | square-and-multiply squares the result while reading the exponent from its lowest bit | `Pow(2, 2)` gives 2 | a^exp | not executed | Arith.PowAsWrittenCounterexample | Arith.PowSqIsPower |
