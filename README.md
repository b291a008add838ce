# cassie terms in Dafny

A model of the symbolic-term engine of the `cassie` crate. A `Term` is an
expression tree: constants, single-character variables, n-ary sums,
differences, products and quotients, and six trigonometric wrappers. The
model covers evaluation against an optional binding table (`evaluate` supplies
one, `reduce` supplies none), the `+` combinator that merges two terms into a
flat `Sum`, and `Variable`: its constructors, parsing from a string and its
debug rendering.

Files and modules:

- `Wrappers.dfy` (`Wrappers`): `Option` and `Result`.
- `Decimal.dfy` (`Decimal`): the decimal rendering of a count, as `{}` writes a `usize`, with its inverse.
- `Variable.dfy` (`Variables`): the `Variable` record, `Named`, `New`, `FromStr` and `Debug`.
- `Term.dfy` (`Terms`): the `Term` datatype, the evaluator `Eval`, and `Add`.
  `Eval` is a function whose n-ary arms are folds shaped like the source's
  loops: `Accumulate` for sums, differences and products, and `DivideFrom`
  for quotients.
- `TermLaws.dfy` (`TermLaws`): reference definitions and the lemmas that tie
  `Eval` and `Add` to them. The reference definitions are the left fold of
  the children's values, the first failing child, and the first divisor a
  quotient refuses.
- `TermEngine.dfy` (`TermEngine`): the evaluator as methods with running
  accumulators and early returns, as the source runs it. It also holds
  `Evaluate`, `Reduce`, and the two forms of `+`. Each method is proved equal
  to the function that specifies it.

Data model:

- `Terms.Term` is the `enum Term` at `src/term.rs:11-110`. Each `Vec<Term>` is a `seq<Term>`, and each `Box<Term>` is a plain child term.
- `Variables.Variable` is the `struct Variable` at `src/variable.rs:7-10`. Its one field is the symbol `char`.
- `Terms.WellFormed` states the requirement behind the `terms[0]` reads at `src/term.rs:171` and `src/term.rs:197`.

Modelling decisions:

- Numbers are `real`.
- The math library's `sin`, `cos`, `tan`, `asin`, `acos` and `atan` are the six fields of a `MathLib` value passed to evaluation. Every result holds for any six functions.
- The binding table is a `map<char, real>`. `Option<Bindings>` says whether one was supplied.
- `Difference` and `Quotient` read their first child, so evaluation requires `WellFormed(t)`: every such node in the tree has a child.
- Errors are the source's exact strings: `Terms.DivisionByZero` (`src/term.rs:204`), `Terms.Unbound` (`src/term.rs:218`), `Terms.MissingBindings` (`src/term.rs:221`), `Variables.NoneGiven` (`src/variable.rs:71`) and `Variables.TooLong` (`src/variable.rs:73`). The refusal threshold `Terms.Threshold` is the literal at `src/term.rs:203`.
- The doc comment of `Quotient` (`src/term.rs:70`) says the first value is divided by each *following* term. The loop at `src/term.rs:200` divides by every term, the first one included. The model follows the loop.
- The doc comment of `reduce` (`src/term.rs:133-135`) says it panics on a variable and behaves like `evaluate` with an empty table. The code returns an error instead (`src/term.rs:221`). That error is not the one an empty table gives (`src/term.rs:218`). The model follows the code. `TermLaws.ReduceFailsOnVariable` and `TermLaws.ReduceIsNotEmptyTable` state both facts.
- A quotient divides its first value by every child, the first one included (`src/term.rs:200`). So `Quotient([6, 2])` is `6 / 6 / 2 = 0.5`, and a one-child quotient of a value of magnitude at least `1e-17` is `1`. The model keeps this behaviour; `TermLaws.ExampleQuotientDividesFirstByItself` and `TermLaws.QuotientOfOne` exhibit it.
- When the left operand of `+` is not a sum and the right one is, the code pushes the left operand after the right operand's children (`src/term.rs:281-283`). The code appends the left operand; it does not prepend it. `TermLaws.AddEval` shows the consequence: when both operands fail, the right operand's error is the one reported.
- Variable equality is the datatype's structural equality on `symbol`.

## Model

| member | source | states |
|---|---|---|
| `Variables.Named` | src/variable.rs:23-25 | the variable named `c` has symbol `c` |
| `Variables.New` | src/variable.rs:36-38 | `New(c)` is `Named(c)` |
| `Variables.FromStr` | src/variable.rs:68-75 | parsing succeeds iff the string has exactly one char, and that char is the symbol; the empty string gives the "none given" error; a longer string gives the "cannot be longer" error with its char count |
| `Variables.Debug` | src/variable.rs:51-53 | the rendering is exactly one char, the symbol |
| `Variables.ParseNamed` | src/variable.rs:62-63 | parsing `[c]` gives `Named(c)` |
| `Variables.ParseDebugRoundTrip` | src/variable.rs:47-75 | parsing the rendering gives the variable back, and rendering a parsed variable gives the parsed string back |
| `Variables.TooLongCount` | src/variable.rs:73 | the too-long error names the char count in decimal, and the count can be read back from the message |
| `Variables.TooLong` | src/variable.rs:73 | the too-long message is the fixed prefix, then only digits, then the fixed suffix |
| `Variables.ErrorsDistinct` | src/variable.rs:71-73 | the empty-string error differs from every too-long error |
| `Decimal.NatToDecimal` | src/variable.rs:73 | a count renders as a non-empty string of digits with no leading zero |
| `Decimal.DecimalRoundTrip` | src/variable.rs:73 | reading the rendering of `n` back gives `n` |
| `Decimal.DecimalInjective` | src/variable.rs:73 | distinct counts render differently |
| `Terms.Eval` | src/term.rs:154-255 | every error is a refused division, or names a variable: a missing-table error only when no table was given, an unbound error only for a symbol the table lacks |
| `Terms.MapOk` | src/term.rs:223-253 | a wrapper applies its function to a value and passes an error through unchanged |
| `Terms.Accumulate` | src/term.rs:158-195 | the sum, difference and product loops only fail with evaluation errors |
| `Terms.DivideFrom` | src/term.rs:196-212 | the quotient loop only fails with evaluation errors |
| `Terms.MessagesDistinct` | src/term.rs:203-221 | the division error, the unbound error and the missing-table error are pairwise different, and each variable error determines its symbol |
| `Terms.Add` | src/term.rs:262-290 | `+` always builds a `Sum`; its children are, as a multiset, the summands of both operands; it stays well-formed |
| `TermLaws.WellFormedIff` | src/term.rs:170-200 | a term meets the evaluation precondition exactly when no `Difference` or `Quotient` node anywhere in it is empty |
| `TermLaws.ConstantEval` | src/term.rs:157 | a constant evaluates to its value, with or without a table |
| `TermLaws.VariableEval` | src/term.rs:213-222 | no table gives the missing-table error, a table without the symbol gives the unbound error, otherwise the bound value |
| `TermLaws.TrigEval` | src/term.rs:223-253 | each of the six wrappers applies its own function to the child's value and passes the child's error on unchanged |
| `TermLaws.AccumulateSpec` | src/term.rs:158-195 | the fold gives the left fold of all children's values when all succeed, else exactly the error of the lowest-index failing child |
| `TermLaws.SumEval` | src/term.rs:158-169 | a sum is `0 + c0 + ... + cn`, or the first child error |
| `TermLaws.ProductEval` | src/term.rs:184-195 | a product is `1 * c0 * ... * cn`, or the first child error |
| `TermLaws.DifferenceEval` | src/term.rs:170-183 | a non-empty difference is `c0 - c1 - ... - cn`, or the first child error, the first child's included |
| `TermLaws.DivideFromSpec` | src/term.rs:200-211 | the quotient loop gives the left quotient when every divisor is admissible, else stops at the first inadmissible divisor with its error or the division error |
| `TermLaws.QuotientEval` | src/term.rs:196-212 | a quotient fails with its first child's error, else is `c0 / c0 / c1 / ... / cn` when every divisor is admissible, else stops at the first inadmissible divisor |
| `TermLaws.QuotientOfOne` | src/term.rs:196-212 | a one-child quotient of a value at or above the threshold is 1 |
| `TermLaws.QuotientRefusesZero` | src/term.rs:200-206 | a divisor below 1e-17, the first child included, reached after admissible ones, gives "Attempted division by zero." |
| `TermLaws.TableIrrelevant` | src/term.rs:128-152 | on a variable-free term, evaluating with any table equals reducing |
| `TermLaws.AccumulateTableIrrelevant` | src/term.rs:158-195 | the sum, difference and product loops over variable-free children do not depend on the table |
| `TermLaws.DivideFromTableIrrelevant` | src/term.rs:196-212 | the quotient loop over variable-free children does not depend on the table |
| `TermLaws.ReduceFailsOnVariable` | src/term.rs:131-152 | reducing any term that holds a variable fails |
| `TermLaws.ReduceIsNotEmptyTable` | src/term.rs:131-152 | for a variable, reducing gives the missing-table error while an empty table gives the unbound error, and the two differ |
| `TermLaws.AccumulateFailsOnVariable` | src/term.rs:158-195 | without a table, the sum, difference and product loops fail when a child holds a variable |
| `TermLaws.DivideFromFailsOnVariable` | src/term.rs:196-212 | without a table, the quotient loop fails when a child holds a variable |
| `TermLaws.AddOrder` | src/term.rs:262-290 | the children of `l + r` are the summands of `l` then of `r`, except that a non-sum `l` goes after the children of a sum `r` |
| `TermLaws.AddFlat` | src/term.rs:262-290 | combining flat operands gives a flat sum, with no sum among its children |
| `TermLaws.AddEval` | src/term.rs:262-290 | `l + r` fails with the error of whichever operand's children come first in the result, if it fails, else with the other operand's error, and otherwise adds the two values; the right operand comes first only when it alone is a sum |
| `TermLaws.AddValue` | src/term.rs:262-290 | when both operands evaluate, `l + r` evaluates to the sum of their values |
| `TermLaws.ExampleVariablePlusConstant` | src/term.rs:120-126 | `x + 100` with `x = 28` evaluates to 128 |
| `TermLaws.ExampleFlatten` | src/term.rs:264-271 | `Sum([a, b]) + Sum([c, d])` is `Sum([a, b, c, d])` |
| `TermLaws.ExampleDivisionByZero` | src/term.rs:203-204 | `Quotient([5, 0])` fails with the division error |
| `TermLaws.ExampleQuotientDividesFirstByItself` | src/term.rs:199-206 | `Quotient([6, 2])` evaluates to 0.5 |
| `TermEngine.EvalTerm` | src/term.rs:154-255 | the recursive evaluator computes exactly `Eval` |
| `TermEngine.EvalSum` | src/term.rs:158-169 | the running-total loop from 0 computes the sum arm of `Eval` |
| `TermEngine.EvalDifference` | src/term.rs:170-183 | the loop subtracting later children from the first computes the difference arm of `Eval` |
| `TermEngine.EvalProduct` | src/term.rs:184-195 | the running-product loop from 1 computes the product arm of `Eval` |
| `TermEngine.EvalQuotient` | src/term.rs:196-212 | the loop dividing by every child, with the threshold check before each division, computes the quotient arm of `Eval` |
| `TermEngine.Evaluate` | src/term.rs:128-130 | evaluation with a table; on a variable-free term it agrees with `Reduce` |
| `TermEngine.Reduce` | src/term.rs:150-152 | evaluation without a table; it fails on every term that holds a variable |
| `TermEngine.AddRef` | src/term.rs:262-290 | copying a child list and pushing onto it builds exactly `Add(l, r)` |
| `TermEngine.AddOwned` | src/term.rs:297-299 | the by-value `+` gives the same term as the by-reference one |

## Left out

- IEEE-754 double semantics are not modelled: rounding, non-associativity, NaN from out-of-domain `asin`/`acos`, and infinities. Arithmetic is on `real`, so `AddValue`'s sum of values holds over the reals only.
- The division threshold is the exact real `1e-17`. The source's literal is the nearest double to it.
- The trigonometric functions are not defined. They are host math-library calls, so the model takes them as parameters.
- The `HashMap` binding table is modelled as a `map<char, real>`. Hashing is not modelled.
- The panic of `terms[0]` on an empty `Difference` or `Quotient` is not modelled. The precondition `WellFormed` excludes it instead. `WellFormed` is structural: it rejects every tree that holds an empty `Difference` or `Quotient` node, including trees where evaluation would stop with an error before reaching that node. For example, `Sum([Variable('x'), Difference([])])` reduced fails at `src/term.rs:221` and never panics, but it is outside the model (`TermLaws.WellFormedIff`).
- `Clone`, `Box` and ownership are not modelled. Terms are immutable values, so the operands of `+` are unchanged by construction.
- The `fmt::Formatter` write is not modelled. `Debug` returns the one-char string that would be written.
- The empty test module of `src/variable.rs` has nothing to model.
