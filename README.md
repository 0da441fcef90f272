# diy-lisp in Dafny

A model of the core of diy-lisp, a small Lisp interpreter written in Python 2, with
proofs about it. The model has three parts.

- **The parser** (`diy-lisp-master/diylisp/parser.py`). It covers:
  - `remove_comments`;
  - the whitespace collapse and strip done by `parse`;
  - `find_matching_paren`, `first_expression` and `split_exps`;
  - `parse` with its inner `parse_tokens`, including both list branches: the flat shortcut that removes the parentheses and splits at single spaces, and the general route through `find_matching_paren` and `split_exps`;
  - `parse_multiple` and `unparse`.

  Where the source loops (`find_matching_paren`, `split_exps`, the list loops of `parse_tokens`, `parse_multiple`), the model is a method with the same loop. Each such method is proved equal to a function, and the lemmas reason about that function.
- **Environments and closures** (`diylisp/types.py`).
  - `Environment` is a class holding one dictionary. `Lookup` reads it, `Set` adds a binding in place unless the name is already bound, and `Extend` returns a new object over a fresh dictionary.
  - The evaluator needs object sharing: a closure and the `define` that names it must see the same dictionary. So it keeps every environment object in a `Store`, indexed by object. Its `Lookup`, `Set` and `Extend` are built from the same dictionary-level functions as the class.
- **The evaluator** (`diylisp/evaluator.py`). It covers:
  - `evaluate`, including dispatch on the shape of the tree and on the head symbol;
  - the ten special forms of the `keywords` table;
  - `eval_math` with the six operators of `math_operators`;
  - closure application.

  `Eval` takes fuel, which bounds the depth of evaluation in place of Python's stack limit. It returns the store as the evaluation left it, on errors too.

Every `LispError` of the source is an `Error` value carrying the same information, and `Error.Message` gives the text the source raises. Python exceptions that are not `LispError`s are also `Error` values, of the form `Host(kind)`; they are not preconditions, because they depend on run-time values. They cover:
- `IndexError` for an empty token, evaluating `()`, printing `(quote)` with `unparse`, and looking for a first expression in an empty text;
- `AttributeError` for a first expression starting with `)`, evaluating a closure, and `head`, `tail` or `empty` of a closure;
- `TypeError` for `cons` onto a non-list, `reduce` over no arguments, a list among a lambda's parameters, and `head`, `tail` or `empty` of an integer or a boolean;
- `ZeroDivisionError`.

The behaviour follows the code wherever a description of the language would say otherwise:
- `if` chooses its branch by Python truth, so `0`, the empty symbol and the empty list are false too.
- `eq` compares closures as the source does, by object identity, so a closure is `eq` to itself.
- An atom is ended only by whitespace, `)` and `'`. A `(` inside an atom stays part of it, as the pattern `^[^\s)']+` has it.
- `head`, `tail` and `empty` accept a symbol and treat it as the Python string it is.
- `>` folds over more than two arguments by comparing the previous boolean result as 0 or 1.
- `extend` copies the parent's bindings into the child's new dictionary. So inside a function body, a `define` of a parameter or of any name bound in the closure's environment fails with `already defined`, where shadowing might be expected.
- The flat list shortcut deletes every parenthesis of a text with one `(` and one `)`, wherever they are. So `(a b) c` reads as the list of `a`, `b` and `c`.
- The general list branch reads up to the `)` that matches the first `(` and ignores what follows. So `(a (b)) c` reads as `(a (b))`, and ` c` is lost without an error.

## Model

| member | source | states |
|---|---|---|
| Ast.IsAtom | diy-lisp-master/diylisp/parser.py:6-25 | a value is an atom exactly when it is not a list |
| Parser.FindMatchingParen | diy-lisp-master/diylisp/parser.py:74-89 | the depth-counting loop returns what `MatchingParen` specifies, including the `Incomplete` error |
| ParserFacts.MatchingParenSpec | diy-lisp-master/diylisp/parser.py:74-89 | a result is a later `)` where the depth opened at `start` first returns to zero, with every earlier position still open; failure is `Incomplete` of the text from `start`, exactly when the depth never returns to zero |
| ParserFacts.MatchingParenAt | diy-lisp-master/diylisp/parser.py:74-89 | conversely, the first position where the depth returns to zero is the result |
| Parser.FirstExpression | diy-lisp-master/diylisp/parser.py:108-124 | a first expression is never empty, and it and the rest together are no longer than the input |
| ParserFacts.FirstExpressionParen | diy-lisp-master/diylisp/parser.py:117-119 | on a stripped text starting with `(`, the expression ends at the matching `)` and is enclosed, the expression followed by the rest is the stripped text, and without a match the error is `Incomplete` |
| ParserFacts.FirstExpressionAtom | diy-lisp-master/diylisp/parser.py:120-124 | otherwise the expression is the longest prefix of atom characters; it fails, with the regex match's `AttributeError`, exactly when the text starts with `)` |
| ParserFacts.FirstExpressionQuote | diy-lisp-master/diylisp/parser.py:114-116 | a leading `'` is glued to the first expression of the rest, and errors pass through |
| ParserFacts.FirstExpressionNonSpace | diy-lisp-master/diylisp/parser.py:108-124 | splitting off the first expression loses nothing but whitespace |
| Parser.SplitFrom | diy-lisp-master/diylisp/parser.py:101-106 | every piece is non-empty and no longer than the text |
| Parser.SplitExps | diy-lisp-master/diylisp/parser.py:91-106 | the loop computes `SplitFrom` of the stripped text, errors included |
| ParserFacts.SplitFromNonSpace | diy-lisp-master/diylisp/parser.py:91-106 | the pieces joined with spaces give back the text, up to whitespace |
| ParserExamples.SplitExample | diy-lisp-master/diylisp/parser.py:95-98 | the documented example `foo bar (baz 123)` splits into `foo`, `bar` and `(baz 123)` |
| ParserFacts.RemoveCommentsClean | diy-lisp-master/diylisp/parser.py:70-72 | after removal no `;` is followed anywhere by a line break |
| ParserFacts.RemoveCommentsKeeps | diy-lisp-master/diylisp/parser.py:70-72 | a text without such a comment is left as it is |
| ParserFacts.RemoveCommentsIdempotent | diy-lisp-master/diylisp/parser.py:70-72 | removing comments twice is removing them once |
| ParserFacts.RemoveCommentsLines | diy-lisp-master/diylisp/parser.py:70-72 | every line break survives |
| ParserFacts.RemoveCommentsPlain | diy-lisp-master/diylisp/parser.py:70-72 | text without `;` is kept as it is, whatever follows it |
| ParserFacts.RemoveCommentsLine | diy-lisp-master/diylisp/parser.py:70-72 | a `;` and the rest of its line become that line break alone, and a `;` with no line break after it is kept |
| ParserFacts.RemoveCommentsSplit | diy-lisp-master/diylisp/parser.py:70-72 | once every `;` of a first piece has a line break after it in that piece, the two pieces are cleaned independently |
| ParserFacts.RemoveCommentsAfterLine | diy-lisp-master/diylisp/parser.py:70-72 | a text that ends in a line break and what follows it are cleaned independently |
| ParserFacts.NormalizeTight | diy-lisp-master/diylisp/parser.py:307 | the whitespace collapse and strip leave single spaces only, and none at either end; the result is the text's whitespace-separated words joined by single spaces |
| ParserFacts.NormalizeIdempotent | diy-lisp-master/diylisp/parser.py:307 | collapsing and stripping a second time changes nothing |
| ParserFacts.NormalizeNonSpace | diy-lisp-master/diylisp/parser.py:307 | every non-whitespace character is kept, in order |
| Parser.AstOf | diy-lisp-master/diylisp/parser.py:309-352 | whatever `parse_tokens` produces has no closure in it |
| Parser.AstsOf | diy-lisp-master/diylisp/parser.py:318-331 | parsing the pieces gives one tree per piece, with no closures |
| Parser.ParseTokens | diy-lisp-master/diylisp/parser.py:309-352 | the method, with its loops, computes `AstOf` on every input, errors included |
| Parser.ParseNested | diy-lisp-master/diylisp/parser.py:323-331 | the general list branch computes `AstOf` for a text that opens with `(` and is neither `()` nor flat nor over-closed |
| Parser.ParseEach | diy-lisp-master/diylisp/parser.py:318-331 | the append loop computes `AstsOf`: the first error, or every piece parsed in order |
| Parser.Parse | diy-lisp-master/diylisp/parser.py:303-307 | `parse` is parse_tokens of the text after comment removal, collapse and strip |
| ParserExamples.ParseAtomToken | diy-lisp-master/diylisp/parser.py:343-351 | a token that starts neither a list nor a quote reads as a boolean for `#t`/`#f`, as an integer when all digits, and otherwise as a symbol of that same text |
| ParserExamples.ParseQuoteToken | diy-lisp-master/diylisp/parser.py:332-337 | `'x` reads as the list of `quote` and what `x` reads as, and an error for `x` is the error |
| ParserExamples.ParseFourQuotes | diy-lisp-master/diylisp/parser.py:293-294 | `''''foo` reads as four nested quote lists |
| ParserExamples.ParseExpectedEof | diy-lisp-master/diylisp/parser.py:321-322 | a list text with more `)` than `(` is refused with `Expected EOF` |
| ParserExamples.ParseIncomplete | diy-lisp-master/diylisp/parser.py:323-324 | a list text whose depth never returns to zero is refused as incomplete, quoting the whole text |
| ParserExamples.ParseIncompleteExample | diy-lisp-master/diylisp/parser.py:218-222 | `(foo` is incomplete |
| ParserExamples.ParseSpacedFlatList | diy-lisp-master/diylisp/parser.py:315-320 | spaces just inside a flat list's parentheses give empty pieces, whose parse fails on an empty token |
| ParserExamples.ParseSpacedFour | diy-lisp-master/diylisp/parser.py:303-307 | four symbols in parentheses, with any runs of whitespace before, between and after them, read as the list of the four symbols |
| ParserExamples.ParseExtraWhitespace | diy-lisp-master/diylisp/parser.py:233-242 | the test's program, with line breaks and long runs of spaces, reads as the list of `program`, `with`, `much` and `whitespace` |
| ParserExamples.NormalizeSpaced | diy-lisp-master/diylisp/parser.py:307 | words separated by runs of whitespace normalise to the words joined by single spaces |
| ParserExamples.ParseCommented | diy-lisp-master/diylisp/parser.py:303-307 | a program of four lines carrying three comments, one before the code, one on a line of its own and one after code, reads as the tree the lines hold without the comments |
| ParserExamples.ParseCommentsExample | diy-lisp-master/diylisp/parser.py:244-259 | the test's program reads as `(define variable (if #t 42 (something else)))` |
| ParserExamples.NegativeIntegerReadsAsSymbol | diy-lisp-master/diylisp/parser.py:347-351 | `-5` prints with its sign and reads back as a symbol, not an integer |
| Parser.ParseMultiple | diy-lisp-master/diylisp/parser.py:131-142 | the loop computes `ParsedAll`: comments removed once, the text split into expressions, each one parsed, the first error stopping |
| RoundTrip.ParsedEachUnparsed | diy-lisp-master/diylisp/parser.py:142 | parsing each printed canonical tree on its own gives the trees back, in order |
| RoundTrip.ParseMultipleUnparse | diy-lisp-master/diylisp/parser.py:131-142 | `parse_multiple` of canonical trees printed one after the other with single spaces gives the trees back |
| ParserExamples.ParseMultipleExample | diy-lisp-master/diylisp/parser.py:136-137 | the documented example `(foo bar) (baz 1 2 3)` reads as the two lists |
| Parser.UnparseAll | diy-lisp-master/diylisp/parser.py:153 | the elements' texts, in order; fails exactly when some element fails |
| ParserExamples.UnparseQuoteOf | diy-lisp-master/diylisp/parser.py:150-151 | a quote list prints as `'` and its argument |
| ParserExamples.UnparseListOf | diy-lisp-master/diylisp/parser.py:152-153 | any other list prints as its elements space-joined in parentheses |
| RoundTrip.UnparseText | diy-lisp-master/diylisp/parser.py:144-156 | a canonical tree prints, as a tight, comment-free, balanced text; an atom prints as atom characters, and a non-quote list as one enclosed parenthesised expression |
| RoundTrip.FirstOfUnparse | diy-lisp-master/diylisp/parser.py:108-124 | the first expression of a printed tree, followed by a space-led tail, is exactly that printed tree |
| RoundTrip.SplitUnparsed | diy-lisp-master/diylisp/parser.py:91-106 | split_exps of the space-joined printed trees gives back the printed trees |
| RoundTrip.AstOfListText | diy-lisp-master/diylisp/parser.py:312-331 | parse_tokens on a printed non-empty list gives the list of the parsed pieces, through whichever of the two list branches applies |
| RoundTrip.AstOfUnparse | diy-lisp-master/diylisp/parser.py:309-352 | parse_tokens reads every printed canonical tree back as that tree |
| RoundTrip.ParseUnparse | diy-lisp-master/diylisp/parser.py:303-353 | `parse(unparse(v)) == v` for every canonical tree |
| ParserExamples.CrazyQuoteCombo | diy-lisp-master/diylisp/parser.py:296-300 | `'(this ''''(makes ''no) 'sense)` reads as a tree that prints as the same text |
| Types.LookupIn | diylisp/types.py:31-35 | the bound value exactly when the symbol is bound, and otherwise an error carrying the symbol |
| Types.Insert | diylisp/types.py:41-45 | fails with `already defined` exactly when the symbol is bound; otherwise adds that one binding and keeps every other |
| Types.Overlay | diylisp/types.py:37-39 | the receiver's bindings with the new ones overriding them, and no other keys |
| Types.LookupAfterInsert | diylisp/types.py:41-45 | after a successful set the symbol finds its value and every other symbol finds what it found before |
| Types.LookupAfterOverlay | diylisp/types.py:37-39 | lookup in an extension prefers the new bindings and otherwise falls back to the receiver's |
| Types.Environment.constructor | diylisp/types.py:28-29 | the new environment holds the given dictionary |
| Types.Environment.Lookup | diylisp/types.py:31-35 | as `LookupIn`, on the object's dictionary |
| Types.Environment.Extend | diylisp/types.py:37-39 | a fresh object over the overlaid dictionary; the receiver is unchanged |
| Types.Environment.Set | diylisp/types.py:41-45 | adds the binding in place, or fails with `already defined` and leaves the dictionary as it was |
| Types.ExtendThenSet | diylisp/types.py:37-45 | after extending, a set on the child or on the parent is not seen by the other |
| Types.ClosureText | diylisp/types.py:23-24 | a closure prints as `<closure/N>`, where N reads back as the number of parameters |
| Types.NewClosure | diylisp/types.py:18-21 | a new closure object keeps the environment, parameters and body as given; it takes the store's next identity, the store stays valid (every stored closure carries an identity already handed out), and so it differs from every value bound in any environment |
| Types.Lookup | diylisp/types.py:31-35 | lookup in one environment of the store; a found value refers only to existing environments and to closure identities already handed out |
| Types.Set | diylisp/types.py:41-45 | set in one environment of the store: that one gains the binding and every other environment is unchanged |
| Types.Extend | diylisp/types.py:37-39 | extend in the store: a new environment, at the next free index, over a copy of the receiver's bindings overridden by the new ones |
| Evaluator.Eval | diylisp/evaluator.py:95-122 | evaluation only adds environments and closures, changes no environment other than the current one, and only adds bindings to it |
| Evaluator.EvalForm | diylisp/evaluator.py:102-111 | the same frame for a non-empty list, dispatched on its head |
| Evaluator.Apply | diylisp/evaluator.py:112-122 | the same frame for a call, although the body runs in a new environment |
| Evaluator.EvalList | diylisp/evaluator.py:113 | one value per operand, and the same frame |
| Evaluator.EvalKeyword | diylisp/evaluator.py:82-93 | every special form keeps the same frame |
| Evaluator.EvalAtom | diylisp/evaluator.py:36-38 | `atom` gives a boolean |
| Evaluator.EvalEq | diylisp/evaluator.py:40-43 | `eq` gives a boolean |
| Evaluator.EvalEmpty | diylisp/evaluator.py:77-80 | `empty` gives a boolean |
| Evaluator.EvalDefine | diylisp/evaluator.py:49-52 | a successful `define` returns the empty symbol |
| Evaluator.EvalLambda | diylisp/evaluator.py:54-58 | `lambda` allocates no environment |
| Evaluator.MathFold | diylisp/evaluator.py:30 | the fold gives an integer or a boolean, and over no further arguments it gives the accumulator |
| Evaluator.ZipBindings | diylisp/evaluator.py:119 | exactly the symbol parameters are bound, each to one of the arguments |
| Evaluator.ZipBindingsLast | diylisp/evaluator.py:119 | a symbol parameter is bound to the argument at its last occurrence |
| EvaluatorFacts.EvalLiteral | diylisp/evaluator.py:97-98 | integers and booleans evaluate to themselves and change nothing |
| EvaluatorFacts.EvalSymbol | diylisp/evaluator.py:99-100 | a symbol evaluates to its binding in the current environment, and an unbound one is an error naming it |
| EvaluatorFacts.BindingsPersist | diylisp/evaluator.py:49-51 | no evaluation ever changes or removes an existing binding, in any environment |
| EvaluatorFacts.EvalListLiterals | diylisp/evaluator.py:27 | literal operands evaluate to themselves, in order |
| EvaluatorFacts.EvalListQuoted | diylisp/evaluator.py:27 | quoted operands evaluate to the quoted values, in order |
| EvaluatorFacts.QuoteUnevaluated | diylisp/evaluator.py:32-34 | `(quote e)` is `e` itself, unevaluated, and changes nothing |
| EvaluatorFacts.QuoteArity | diylisp/evaluator.py:33 | `quote` with other than one operand is malformed |
| EvaluatorFacts.FormLength | diylisp/evaluator.py:32-80 | every keyword form needs two, three or four elements, its keyword counted |
| EvaluatorFacts.FormArity | diylisp/evaluator.py:32-80 | any keyword form of the wrong length is malformed, named by its keyword, before any operand is evaluated and with the store unchanged |
| EvaluatorFacts.IfArity | diylisp/evaluator.py:46 | `(if)`, `(if c t)` and `(if c t e x)` are malformed and change nothing |
| EvaluatorFacts.AtomIsNotList | diylisp/evaluator.py:36-38 | `(atom e)` is true exactly when the value of `e` is not a list, and errors pass through |
| EvaluatorFacts.EqAtoms | diylisp/evaluator.py:40-43 | `(eq a b)` is true exactly when both values are equal and not lists |
| EvaluatorFacts.EqQuoted | diylisp/evaluator.py:40-43 | the same quoted value is `eq` to itself exactly when it is not a list |
| EvaluatorFacts.IfOneBranch | diylisp/evaluator.py:45-47 | `if` evaluates the condition and then exactly one branch, chosen by Python truth, in the store the condition left |
| EvaluatorFacts.TruthyValues | diylisp/evaluator.py:47 | false, 0, the empty symbol and the empty list are false; true, other integers, other symbols and other lists are true |
| EvaluatorFacts.DefineBinds | diylisp/evaluator.py:49-52 | `define` evaluates the expression first and passes on its error; given a value it succeeds exactly when the name is unbound in the current environment as that evaluation left it, returning the empty symbol and binding the name to the value with everything else unchanged, and otherwise fails with `already defined` in that store, also when the expression itself bound the name |
| EvaluatorFacts.RedefineFails | diylisp/evaluator.py:51 | defining a name already bound in the current environment fails with `already defined` |
| EvaluatorFacts.DefineMalformed | diylisp/evaluator.py:50 | `define` without exactly a symbol and an expression is malformed and changes nothing |
| EvaluatorFacts.LambdaMakesClosure | diylisp/evaluator.py:54-58 | `lambda` evaluates nothing and makes a new closure over the current environment with the parameters and body as written, different from every value bound in the store, so `eq` never confuses it with an older closure |
| EvaluatorFacts.LambdaNonList | diylisp/evaluator.py:56-57 | a parameter spec that is not a list is a `non-list` error quoting the spec's printed text, and the store is unchanged |
| EvaluatorFacts.LambdaFresh | diylisp/evaluator.py:58 | two evaluations of one lambda give two different closures |
| EvaluatorFacts.ConsPrepends | diylisp/evaluator.py:60-63 | `cons` puts the first value in front of the list the second evaluates to, and fails for a non-list |
| EvaluatorFacts.HeadTakesFirst | diylisp/evaluator.py:65-70 | `head` of a list value is its first element, and `empty list` for the empty list |
| EvaluatorFacts.TailDropsFirst | diylisp/evaluator.py:72-75 | `tail` of a list value drops its first element, and is empty for the empty list |
| EvaluatorFacts.EmptyIffNoElements | diylisp/evaluator.py:77-80 | `empty` of a list value is true exactly when it has no elements |
| EvaluatorFacts.HeadNonList | diylisp/evaluator.py:65-70 | `head` of a symbol is its first character, or `empty list` for the empty symbol; of an integer or boolean a TypeError, of a closure an AttributeError; an operand error passes through |
| EvaluatorFacts.TailNonList | diylisp/evaluator.py:72-75 | `tail` of a symbol drops its first character; of an integer or boolean a TypeError, of a closure an AttributeError; an operand error passes through |
| EvaluatorFacts.EmptyNonList | diylisp/evaluator.py:77-80 | `empty` of a symbol is true exactly when it has no characters; of an integer or boolean a TypeError, of a closure an AttributeError; an operand error passes through |
| EvaluatorFacts.ConsHeadTail | diylisp/evaluator.py:60-75 | `head` and `tail` take apart what `cons` builds |
| EvaluatorFacts.EmptyListPrimitives | diylisp/evaluator.py:65-80 | on the empty list `head` fails, `tail` is empty and `empty` is true |
| EvaluatorFacts.FloorDivMod | diylisp/evaluator.py:21-23 | the quotient and remainder recombine to the dividend, and the remainder has the divisor's sign and is smaller than it |
| EvaluatorFacts.FloorDivExamples | diylisp/evaluator.py:21-23 | division rounds down and the remainder follows the divisor, for mixed signs too |
| EvaluatorFacts.MathOfIntegers | diylisp/evaluator.py:26-30 | an operator on integer literals is its fold over them, and changes nothing |
| EvaluatorFacts.MathOnTwo | diylisp/evaluator.py:18-30 | on two integers the six operators give the sum, difference, product, greater-than, floor quotient and floor remainder, with a zero divisor refused |
| EvaluatorFacts.MathNotIntegers | diylisp/evaluator.py:26-30 | all operands are evaluated first and the first error stops the form; no operands fail in `reduce`; any operand value that is not an integer is refused with `Arguments must be integers.`, in the store the operands left; operand values that are all integers, however computed, give the operator's fold over them |
| EvaluatorFacts.MathBooleanOperand | diylisp/evaluator.py:28-29 | `(op 1 #t)` is refused for every operator: a boolean is not an integer |
| EvaluatorFacts.MathOnOne | diylisp/evaluator.py:30 | a single operand is returned as it is, for every operator |
| EvaluatorFacts.ChainedGreater | diylisp/evaluator.py:24-30 | `(> 3 2 1)` is false, because the fold compares the boolean `3 > 2` with 1 |
| EvaluatorFacts.CallClosure | diylisp/evaluator.py:112-120 | a call evaluates the operands in the caller's environment, then evaluates the body in a new environment over the closure's own environment extended with the parameters |
| EvaluatorFacts.CalleeLookup | diylisp/evaluator.py:119-120 | in the callee a parameter names its argument, and every other symbol is looked up in the closure's environment, never the caller's |
| EvaluatorFacts.CallArity | diylisp/evaluator.py:116-118 | a wrong number of arguments fails, reporting the expected and the given count |
| EvaluatorFacts.CallNonFunction | diylisp/evaluator.py:122 | applying anything but a closure fails with `not a function` and its text |
| EvaluatorFacts.IntegerNotAFunction | diylisp/evaluator.py:122 | `(1 2)` fails with `not a function: 1` |
| EvaluatorFacts.SelfReferenceDefine | diylisp/evaluator.py:49-58 | `(define f (lambda () f))` binds `f` to a closure over the same environment |
| EvaluatorFacts.SelfReferenceCall | diylisp/evaluator.py:112-120 | `(f)` then returns that closure: the body sees the binding made after the closure, because environments are shared |

## Left out

- Evaluator.Eval: the AST is not mutated. `evaluate` writes the evaluated head back into the list node (diylisp/evaluator.py:103, 110), and so a node evaluated a second time reuses the head's earlier value; the model evaluates the head afresh each time.
- Evaluator.Eval: its own contract states the frame only (what may change in the store); the value of each form is stated by the EvaluatorFacts lemmas.
- Evaluator.Eval: the fuel parameter stands in for Python's recursion limit; running out is the `OutOfFuel` error, which the source does not have.
- EvaluatorFacts.MathBooleanOperand: Python's bool-is-int behaviour is not reproduced. `is_integer(True)` holds in Python, so `(+ #t 1)` is accepted there and refused here, and `(eq 1 #t)` is true there and false here.
- The `asserts` module is not part of this model. Its `assert_exp_length` is taken to require the exact length, and `assert_valid_definition` a symbol and one expression; the error text of both is unknown, so `Malformed` names only the form.
- Parser.ParseTokens: `int(float(tokens))` loses precision above 2^53, and raises OverflowError for a token of about 309 digits or more, beyond the largest float; the model reads every all-digit token exactly.
- Parser.ParseTokens: a token of 2^63 or more reads as a Python 2 `long`, not an `int`; the model reads it as an integer like any other.
- Evaluator.Eval: a `long` is neither `int`, `bool` nor `str` to `isinstance`, so `evaluate` of one falls through to `ast[0]` and raises TypeError, and `atom` and `eq` are false on it; the model treats every integer alike.
- Evaluator.EvalMath: integers are unbounded. In Python 2 a sum, difference or product beyond 64 bits becomes a `long`, so a further arithmetic operation on it raises `Arguments must be integers.`; the model goes on computing.
- Parser.ParseTokens: the debugging `print tokens` (diy-lisp-master/diylisp/parser.py:311) is left out, as are the import-time prints (diy-lisp-master/diylisp/parser.py:355-374) and the test functions, which serve as examples only.
- The `re` module is replaced by explicit scans for the comment pattern, the whitespace collapse and the atom pattern; whitespace is Python 2's `\s` on byte strings.
- Strings are sequences of characters; Python 2 byte strings and their encoding are not modelled.
- The stub `Closure` and `Environment` classes of diy-lisp-master/diylisp/parser.py:32-52 only raise `NotImplementedError`, and the stubs are not modelled. The working classes of diylisp/types.py are.
- The root-level evaluator.py and types.py are earlier drafts and are not part of this model.
- Types.Environment: the evaluator does not use the class. It uses the `Store`, whose operations are built from the same dictionary-level functions.
- Types.Environment: the object holds its dictionary as a value. In Python the constructor keeps a reference to the dictionary it is given, so a later change through either name is seen by the other, and it replaces an empty dictionary by a new `{}` (diylisp/types.py:29). No caller in the evaluator depends on either.
- Evaluator.ZipBindings: only symbol parameters are modelled as bindings. Integer or boolean parameters give dictionary keys that no lookup can reach, so they are dropped. A list parameter is unhashable in Python and gives `TypeError`.
- RoundTrip.ParseUnparse: `parse(unparse(v)) == v` is proved for canonical trees only. Those have symbols that read back as symbols, non-negative integers, quote lists with one argument, and no closures. The other direction, `unparse(parse(s)) == s` up to whitespace, is proved for the test's example only (ParserExamples.CrazyQuoteCombo); ParserExamples.ParseSpacedFlatList shows a text for which parsing fails.
- Parser.ParseNested is a method split out of parse_tokens for the general list branch; it has the same code as that branch.
- Closure identity is a number drawn from a counter in the store, standing for Python object identity.
