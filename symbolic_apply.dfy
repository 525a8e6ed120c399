/**
 * Evaluation of virtual columns into symbolic expressions, as done when
 * constraints are compiled, and the law tying it to concrete evaluation:
 * building the expression and then substituting row values gives the value
 * that evaluating directly on those rows gives.
 */
module SymbolicApply {
  import Field
  import opened VirtualColumn
  import opened ConcreteApply

  /** A symbolic expression over the columns of a PAIR. */
  datatype Expr =
    | Const(value: Field.Elem)
    | Var(column: PairCol)
    | Add(left: Expr, right: Expr)
    | MulConst(operand: Expr, weight: Field.Elem)

  /** Every variable of `e` names a cell of rows of the given widths. */
  predicate WellScoped(e: Expr, preprocessedLen: nat, mainLen: nat)
  {
    match e
    case Const(_) => true
    case Var(column) => InRange(column, preprocessedLen, mainLen)
    case Add(l, r) => WellScoped(l, preprocessedLen, mainLen) && WellScoped(r, preprocessedLen, mainLen)
    case MulConst(x, _) => WellScoped(x, preprocessedLen, mainLen)
  }

  /** Substitutes the rows' values for the variables and computes in the field. */
  function EvalExpr(e: Expr, preprocessed: seq<Field.Elem>, main: seq<Field.Elem>): Field.Elem
    requires WellScoped(e, |preprocessed|, |main|)
  {
    match e
    case Const(c) => c
    case Var(column) => Get(column, preprocessed, main)
    case Add(l, r) => Field.Add(EvalExpr(l, preprocessed, main), EvalExpr(r, preprocessed, main))
    case MulConst(x, w) => Field.Mul(EvalExpr(x, preprocessed, main), w)
  }

  /** Expressions as the algebra of results: rows hold expressions too. */
  function SymbolicAlgebra(): Algebra<Expr, Expr>
  {
    Algebra(c => Const(c), v => v, (l, r) => Add(l, r), (x, w) => MulConst(x, w))
  }

  predicate RowWellScoped(row: seq<Expr>, preprocessedLen: nat, mainLen: nat)
  {
    forall i :: 0 <= i < |row| ==> WellScoped(row[i], preprocessedLen, mainLen)
  }

  /** The row of field values that a row of expressions denotes. */
  function EvalRow(row: seq<Expr>, preprocessed: seq<Field.Elem>, main: seq<Field.Elem>): (r: seq<Field.Elem>)
    requires RowWellScoped(row, |preprocessed|, |main|)
    ensures |r| == |row|
    ensures forall i :: 0 <= i < |row| ==> r[i] == EvalExpr(row[i], preprocessed, main)
  {
    seq(|row|, i requires 0 <= i < |row| => EvalExpr(row[i], preprocessed, main))
  }

  /** The symbolic row of a table of width `n`: one variable per column. */
  function PreprocessedVars(n: nat): (r: seq<Expr>)
    ensures |r| == n && forall i :: 0 <= i < n ==> r[i] == Var(Preprocessed(i))
  {
    seq(n, i requires 0 <= i < n => Var(Preprocessed(i)))
  }

  function MainVars(n: nat): (r: seq<Expr>)
    ensures |r| == n && forall i :: 0 <= i < n ==> r[i] == Var(Main(i))
  {
    seq(n, i requires 0 <= i < n => Var(Main(i)))
  }

  /**
   * Evaluating symbolically and then substituting values is evaluating on
   * the substituted rows.
   */
  lemma {:induction false} SymbolicThenSubstitute(
    entries: seq<(PairCol, Field.Elem)>, constant: Field.Elem,
    symPreprocessed: seq<Expr>, symMain: seq<Expr>,
    preprocessed: seq<Field.Elem>, main: seq<Field.Elem>)
    requires AllInRange(entries, |symPreprocessed|, |symMain|)
    requires RowWellScoped(symPreprocessed, |preprocessed|, |main|)
    requires RowWellScoped(symMain, |preprocessed|, |main|)
    ensures WellScoped(Eval(SymbolicAlgebra(), entries, constant, symPreprocessed, symMain), |preprocessed|, |main|)
    ensures EvalExpr(Eval(SymbolicAlgebra(), entries, constant, symPreprocessed, symMain), preprocessed, main)
         == Eval(FieldAlgebra(), entries, constant,
                 EvalRow(symPreprocessed, preprocessed, main), EvalRow(symMain, preprocessed, main))
    decreases |entries|
  {
    if |entries| > 0 {
      var n := |entries| - 1;
      SymbolicThenSubstitute(entries[..n], constant, symPreprocessed, symMain, preprocessed, main);
      var column := entries[n].0;
      var cell := Get(column, symPreprocessed, symMain);
      assert WellScoped(cell, |preprocessed|, |main|);
      assert EvalExpr(cell, preprocessed, main)
          == Get(column, EvalRow(symPreprocessed, preprocessed, main), EvalRow(symMain, preprocessed, main));
    }
  }

  /**
   * The consistency law: the expression built over the variable rows, with
   * the concrete rows substituted, has the concrete value.
   */
  lemma SymbolicMatchesConcrete(form: VirtualPairCol, preprocessed: seq<Field.Elem>, main: seq<Field.Elem>)
    requires AllInRange(form.columnWeights, |preprocessed|, |main|)
    ensures WellScoped(Eval(SymbolicAlgebra(), form.columnWeights, form.constant,
                            PreprocessedVars(|preprocessed|), MainVars(|main|)), |preprocessed|, |main|)
    ensures EvalExpr(Eval(SymbolicAlgebra(), form.columnWeights, form.constant,
                          PreprocessedVars(|preprocessed|), MainVars(|main|)), preprocessed, main)
         == Value(form, preprocessed, main)
  {
    var symPreprocessed := PreprocessedVars(|preprocessed|);
    var symMain := MainVars(|main|);
    SymbolicThenSubstitute(form.columnWeights, form.constant, symPreprocessed, symMain, preprocessed, main);
    assert EvalRow(symPreprocessed, preprocessed, main) == preprocessed;
    assert EvalRow(symMain, preprocessed, main) == main;
  }

  /** `apply` with symbolic rows: builds the expression of a form. */
  method ApplySymbolic(form: VirtualPairCol, preprocessedWidth: nat, mainWidth: nat) returns (e: Expr)
    requires AllInRange(form.columnWeights, preprocessedWidth, mainWidth)
    ensures WellScoped(e, preprocessedWidth, mainWidth)
    ensures forall preprocessed: seq<Field.Elem>, main: seq<Field.Elem>
      | |preprocessed| == preprocessedWidth && |main| == mainWidth
      :: EvalExpr(e, preprocessed, main) == Value(form, preprocessed, main)
  {
    e := Apply(form, SymbolicAlgebra(), PreprocessedVars(preprocessedWidth), MainVars(mainWidth));
    forall preprocessed: seq<Field.Elem>, main: seq<Field.Elem>
      | |preprocessed| == preprocessedWidth && |main| == mainWidth
      ensures WellScoped(e, preprocessedWidth, mainWidth)
      ensures EvalExpr(e, preprocessed, main) == Value(form, preprocessed, main)
    {
      SymbolicMatchesConcrete(form, preprocessed, main);
    }
    SymbolicMatchesConcrete(form, seq(preprocessedWidth, _ => Field.Zero), seq(mainWidth, _ => Field.Zero));
  }
}
