# Virtual columns of a PAIR, in Dafny

This project models `air/src/virtual_column.rs` of Plonky3's AIR crate. A
PAIR is a preprocessed table and a main trace table side by side. A
`PairCol` names one column of one of the two tables. A `VirtualPairCol` is an
affine function over such columns: an ordered list of `(column, weight)`
pairs plus a constant. The library builds these forms with a family of
factory constructors and evaluates them with `apply`. `apply` is generic: the
same form is evaluated on concrete field rows when a row value is needed, and
on symbolic rows when constraints are compiled.

Modules, one per file:

- `Field` (`field.dfy`): the field the forms are defined over. It is a
  concrete prime field, BabyBear (P = 15 * 2^27 + 1), with `Zero`, `One`,
  `NegOne = P - 1`, `Add`, `Neg`, `Sub` and `Mul`, and the ring facts the
  proofs use.
- `VirtualColumn` (`virtual_column.dfy`): `PairCol` and `Get`, the
  `VirtualPairCol` datatype, its constructors and accessors, and the
  evaluator. The trait bounds of `apply` become a datatype `Algebra<V, E>`
  holding the four operations `apply` uses: a field element into `E`, a row
  value into `E`, addition in `E`, and `E` times a field element. `Apply` is
  a method with a loop and an accumulator, proved against the spec function
  `Eval`, which folds the entries in stored order.
- `ConcreteApply` (`concrete_apply.dfy`): `Apply` with the field as the
  algebra. This file holds the reference meaning `constant + sum of weight *
  value` (`WeightedSum`), and proves that evaluation equals it and does not
  depend on entry order. It also proves what each factory constructor
  evaluates to.
- `SymbolicApply` (`symbolic_apply.dfy`): a small symbolic `Expr` (`Const`,
  `Var`, `Add`, `MulConst`) with its evaluator, `Apply` with `Expr` as the
  algebra, and the consistency law. Building the expression and then
  substituting the row values gives the same value as evaluating directly.

## Model

| member | source | states |
|---|---|---|
| `VirtualColumn.Get` | air/src/virtual_column.rs:22-29 | `Preprocessed(i)` yields `preprocessed[i]` and `Main(i)` yields `main[i]`; the index must be in range for the named table (an out-of-range index panics in the library, so it is a precondition) |
| `VirtualColumn.GetReadsOneTable` | air/src/virtual_column.rs:24-27 | `get` looks only at the table its tag names: replacing the other row does not change the result |
| `VirtualColumn.New` | air/src/virtual_column.rs:32-37 | the weight list and constant are stored unchanged; `GetColumnWeights` and `GetConstant` (lines 73-79) return exactly them |
| `VirtualColumn.NewOwned` | air/src/virtual_column.rs:39-44 | same as `new`: the accessors return the given list and constant |
| `VirtualColumn.NewBorrowed` | air/src/virtual_column.rs:46-51 | same as `new`: the accessors return the given list and constant |
| `VirtualColumn.NewPreprocessed` | air/src/virtual_column.rs:53-61 | same length, entry k is `(Preprocessed(i_k), w_k)`, constant kept |
| `VirtualColumn.NewMain` | air/src/virtual_column.rs:63-71 | same length, entry k is `(Main(i_k), w_k)`, constant kept |
| `VirtualColumn.NewPreprocessedRoundTrip` | air/src/virtual_column.rs:53-61 | stripping the tags gives back the input list (order, indices and weights kept), and every tag is `Preprocessed` |
| `VirtualColumn.NewMainRoundTrip` | air/src/virtual_column.rs:63-71 | stripping the tags gives back the input list, and every tag is `Main` |
| `VirtualColumn.NewPreprocessedIgnoresMain` | air/src/virtual_column.rs:53-61 | in any algebra, a form built by `new_preprocessed` evaluates the same whatever the main row is |
| `VirtualColumn.NewMainIgnoresPreprocessed` | air/src/virtual_column.rs:63-71 | in any algebra, a form built by `new_main` evaluates the same whatever the preprocessed row is |
| `VirtualColumn.Constant` | air/src/virtual_column.rs:86-92 | empty weight list, constant `x` |
| `VirtualColumn.One` | air/src/virtual_column.rs:81-84 | empty weight list, constant 1 |
| `VirtualColumn.ConstantEval` | air/src/virtual_column.rs:142-146 | in any algebra and on any rows, empty ones included, `constant(x)` evaluates to `x` converted and `one()` to 1 converted; no cell is looked up |
| `VirtualColumn.Single` | air/src/virtual_column.rs:94-100 | exactly one entry `(column, 1)`, constant 0 |
| `VirtualColumn.SinglePreprocessed` | air/src/virtual_column.rs:102-105 | exactly one entry `(Preprocessed(i), 1)`, constant 0 |
| `VirtualColumn.SingleMain` | air/src/virtual_column.rs:107-110 | exactly one entry `(Main(i), 1)`, constant 0 |
| `VirtualColumn.SumMain` | air/src/virtual_column.rs:112-116 | one entry `(Main(c), 1)` per listed column, in list order, constant 0 |
| `VirtualColumn.SumPreprocessed` | air/src/virtual_column.rs:118-122 | one entry `(Preprocessed(c), 1)` per listed column, in list order, constant 0 |
| `VirtualColumn.DiffPreprocessed` | air/src/virtual_column.rs:124-128 | entries `[(Preprocessed(a), 1), (Preprocessed(b), -1)]`, constant 0 |
| `VirtualColumn.DiffMain` | air/src/virtual_column.rs:130-134 | entries `[(Main(a), 1), (Main(b), -1)]`, constant 0 |
| `VirtualColumn.Apply` | air/src/virtual_column.rs:136-147 | the accumulator loop returns `Eval`: the constant converted, then for each entry in stored order `add(acc, scale(fromVar(get(col)), weight))`; loop invariant: after k entries the accumulator is the fold of the first k |
| `VirtualColumn.EvalReadsOnlyNamedCells` | air/src/virtual_column.rs:143-145 | in any algebra, two row pairs that agree on every cell the entries name give the same result |
| `ConcreteApply.EvalIsAffine` | air/src/virtual_column.rs:142-146 | with field rows and a field result, the fold equals `constant + sum over entries of weight * value` |
| `ConcreteApply.ApplyField` | air/src/virtual_column.rs:136-147 | `apply` on field rows returns `constant + sum of weight * value` |
| `ConcreteApply.WeightedSumPermutation` | air/src/virtual_column.rs:143-145 | the weighted sum is the same for any permutation of the entries |
| `ConcreteApply.ApplyOrderIndependent` | air/src/virtual_column.rs:142-146 | the value of a form is the same for any permutation of its entries |
| `ConcreteApply.ConstantValue` | air/src/virtual_column.rs:81-92 | on field rows `constant(x)` evaluates to `x` and `one()` to 1, for all rows |
| `ConcreteApply.SingleValue` | air/src/virtual_column.rs:94-100 | `single(c)` evaluates to `get(c)` |
| `ConcreteApply.SinglePreprocessedValue` | air/src/virtual_column.rs:102-105 | `single_preprocessed(i)` evaluates to `preprocessed[i]` |
| `ConcreteApply.SingleMainValue` | air/src/virtual_column.rs:107-110 | `single_main(i)` evaluates to `main[i]` |
| `ConcreteApply.SumMainValue` | air/src/virtual_column.rs:112-116 | `sum_main(cols)` evaluates to the sum of the main cells listed in `cols` |
| `ConcreteApply.SumPreprocessedValue` | air/src/virtual_column.rs:118-122 | `sum_preprocessed(cols)` evaluates to the sum of the preprocessed cells listed in `cols` |
| `ConcreteApply.RowSumPermutation` | air/src/virtual_column.rs:113-122 | the sum of the listed cells of a row is the same for any permutation of the list |
| `ConcreteApply.SumMainOrderIndependent` | air/src/virtual_column.rs:112-116 | `sum_main(cols)` and `sum_main(cols')` have the same value when `cols'` is a permutation of `cols` |
| `ConcreteApply.SumPreprocessedOrderIndependent` | air/src/virtual_column.rs:118-122 | likewise for `sum_preprocessed` |
| `ConcreteApply.DiffPreprocessedValue` | air/src/virtual_column.rs:124-128 | `diff_preprocessed(a, b)` evaluates to `preprocessed[a] - preprocessed[b]` |
| `ConcreteApply.DiffMainValue` | air/src/virtual_column.rs:130-134 | `diff_main(a, b)` evaluates to `main[a] - main[b]` |
| `ConcreteApply.DiffPreprocessedAntisymmetric` | air/src/virtual_column.rs:124-128 | `diff_preprocessed(a, b)` evaluates to the negation of `diff_preprocessed(b, a)` |
| `ConcreteApply.DiffMainAntisymmetric` | air/src/virtual_column.rs:130-134 | `diff_main(a, b)` evaluates to the negation of `diff_main(b, a)` |
| `ConcreteApply.DiffPlusOneExample` | air/src/virtual_column.rs:136-147 | entries `[(Main(0), 1), (Main(1), -1)]`, constant 1, main row `[5, 2]`: the value is 4 |
| `ConcreteApply.SumPreprocessedExample` | air/src/virtual_column.rs:118-122 | `sum_preprocessed([0])` on preprocessed row `[6]` is 6 |
| `SymbolicApply.SymbolicThenSubstitute` | air/src/virtual_column.rs:136-147 | evaluating into expressions over symbolic rows, then substituting values, equals evaluating on the substituted rows |
| `SymbolicApply.SymbolicMatchesConcrete` | air/src/virtual_column.rs:136-147 | the expression built over the variable rows, evaluated at concrete rows, has the concrete value of the form |
| `SymbolicApply.ApplySymbolic` | air/src/virtual_column.rs:136-147 | `apply` with symbolic rows returns an expression whose only variables are in range, and whose value at every pair of rows of those widths is the form's concrete value |

## Left out

- The generic field `F`: the model fixes one concrete prime field, BabyBear, because the field traits and their implementations are not part of this model. The proofs use only ring facts (associativity, commutativity, identities, `x * (-1) = -x`), so they hold the same way in any prime field. The worked example with constant 1 on main row `[5, 2]` gives 4, as it does modulo 7.
- The generic `Expr` and `Var` with their `Into` and `Mul<F>` conversions: these become the four operations of an `Algebra<V, E>` value. There are two instances, the field itself and a small symbolic `Expr`. Other implementations of the traits are not modelled.
- The `Cow` owned/borrowed storage and the `'a` lifetime: these are ownership plumbing with no behaviour. `new`, `new_owned` and `new_borrowed` all store an immutable `seq`.
- The panic on an out-of-range column index: this is a fatal failure with no recovery path in the library, so it is a precondition of `Get` and of evaluation, not an error value.
- `#[derive(Clone, Debug)]`, `#[must_use]` and `const fn`: they have no behaviour to model.
