/**
 * Virtual columns of a PAIR (a preprocessed table beside a main trace table):
 * column references, affine forms over them, their factory constructors, and
 * the evaluator `Apply`, which is generic over the algebra it evaluates in.
 */
module VirtualColumn {
  import opened Field

  /** A column in a PAIR: either a preprocessed column or a main trace column. */
  datatype PairCol = Preprocessed(index: nat) | Main(index: nat)

  /** Whether `col` names an existing cell of rows with the given widths. */
  predicate InRange(col: PairCol, preprocessedLen: nat, mainLen: nat)
  {
    match col
    case Preprocessed(i) => i < preprocessedLen
    case Main(i) => i < mainLen
  }

  /**
   * The value of `col` in one row of each table. An index outside the named
   * table is a fatal indexing failure in the library, hence a precondition.
   */
  function Get<T>(col: PairCol, preprocessed: seq<T>, main: seq<T>): (r: T)
    requires InRange(col, |preprocessed|, |main|)
    ensures col.Preprocessed? ==> r == preprocessed[col.index]
    ensures col.Main? ==> r == main[col.index]
  {
    match col
    case Preprocessed(i) => preprocessed[i]
    case Main(i) => main[i]
  }

  /** `Get` looks only at the table its tag names. */
  lemma GetReadsOneTable<T>(col: PairCol, preprocessed: seq<T>, main: seq<T>, other: seq<T>)
    requires InRange(col, |preprocessed|, |main|)
    ensures col.Preprocessed? ==> Get(col, preprocessed, other) == Get(col, preprocessed, main)
    ensures col.Main? ==> Get(col, other, main) == Get(col, preprocessed, main)
  {
  }

  /**
   * An affine function over the columns of a PAIR: `constant` plus the sum of
   * `weight * column` over `columnWeights`, whose order is kept as given.
   */
  datatype VirtualPairCol = VirtualPairCol(columnWeights: seq<(PairCol, Elem)>, constant: Elem)

  predicate AllInRange(entries: seq<(PairCol, Elem)>, preprocessedLen: nat, mainLen: nat)
  {
    forall k :: 0 <= k < |entries| ==> InRange(entries[k].0, preprocessedLen, mainLen)
  }

  // ---------------------------------------------------------------------------
  // Constructors and accessors. The library's owned and borrowed storage of
  // the weight list have the same meaning; here the list is an immutable seq.
  // ---------------------------------------------------------------------------

  function GetColumnWeights(form: VirtualPairCol): seq<(PairCol, Elem)>
  {
    form.columnWeights
  }

  function GetConstant(form: VirtualPairCol): Elem
  {
    form.constant
  }

  function New(columnWeights: seq<(PairCol, Elem)>, constant: Elem): (r: VirtualPairCol)
    ensures GetColumnWeights(r) == columnWeights && GetConstant(r) == constant
  {
    VirtualPairCol(columnWeights, constant)
  }

  function NewOwned(columnWeights: seq<(PairCol, Elem)>, constant: Elem): (r: VirtualPairCol)
    ensures GetColumnWeights(r) == columnWeights && GetConstant(r) == constant
  {
    VirtualPairCol(columnWeights, constant)
  }

  function NewBorrowed(columnWeights: seq<(PairCol, Elem)>, constant: Elem): (r: VirtualPairCol)
    ensures GetColumnWeights(r) == columnWeights && GetConstant(r) == constant
  {
    VirtualPairCol(columnWeights, constant)
  }

  /** Tags every index of `columnWeights` as a preprocessed column. */
  function NewPreprocessed(columnWeights: seq<(nat, Elem)>, constant: Elem): (r: VirtualPairCol)
    ensures |r.columnWeights| == |columnWeights| && r.constant == constant
    ensures forall k :: 0 <= k < |columnWeights| ==>
      r.columnWeights[k] == (Preprocessed(columnWeights[k].0), columnWeights[k].1)
  {
    New(seq(|columnWeights|, k requires 0 <= k < |columnWeights| =>
          (Preprocessed(columnWeights[k].0), columnWeights[k].1)),
        constant)
  }

  /** Tags every index of `columnWeights` as a main trace column. */
  function NewMain(columnWeights: seq<(nat, Elem)>, constant: Elem): (r: VirtualPairCol)
    ensures |r.columnWeights| == |columnWeights| && r.constant == constant
    ensures forall k :: 0 <= k < |columnWeights| ==>
      r.columnWeights[k] == (Main(columnWeights[k].0), columnWeights[k].1)
  {
    New(seq(|columnWeights|, k requires 0 <= k < |columnWeights| =>
          (Main(columnWeights[k].0), columnWeights[k].1)),
        constant)
  }

  /** Forgets the tags of a weight list, keeping indices and weights. */
  function Untagged(entries: seq<(PairCol, Elem)>): (r: seq<(nat, Elem)>)
    ensures |r| == |entries|
  {
    seq(|entries|, k requires 0 <= k < |entries| => (entries[k].0.index, entries[k].1))
  }

  /** `NewPreprocessed` keeps length, order and weights and only adds the tag. */
  lemma NewPreprocessedRoundTrip(columnWeights: seq<(nat, Elem)>, constant: Elem)
    ensures Untagged(NewPreprocessed(columnWeights, constant).columnWeights) == columnWeights
    ensures forall k :: 0 <= k < |columnWeights| ==>
      NewPreprocessed(columnWeights, constant).columnWeights[k].0.Preprocessed?
  {
    var r := NewPreprocessed(columnWeights, constant).columnWeights;
    assert forall k :: 0 <= k < |columnWeights| ==> Untagged(r)[k] == columnWeights[k];
  }

  /** `NewMain` keeps length, order and weights and only adds the tag. */
  lemma NewMainRoundTrip(columnWeights: seq<(nat, Elem)>, constant: Elem)
    ensures Untagged(NewMain(columnWeights, constant).columnWeights) == columnWeights
    ensures forall k :: 0 <= k < |columnWeights| ==>
      NewMain(columnWeights, constant).columnWeights[k].0.Main?
  {
    var r := NewMain(columnWeights, constant).columnWeights;
    assert forall k :: 0 <= k < |columnWeights| ==> Untagged(r)[k] == columnWeights[k];
  }

  function Constant(x: Elem): (r: VirtualPairCol)
    ensures r.columnWeights == [] && r.constant == x
  {
    VirtualPairCol([], x)
  }

  function One(): (r: VirtualPairCol)
    ensures r.columnWeights == [] && r.constant == Field.One
  {
    Constant(Field.One)
  }

  /** Weight one on a single column, constant zero. */
  function Single(column: PairCol): (r: VirtualPairCol)
    ensures r.columnWeights == [(column, Field.One)] && r.constant == Zero
  {
    VirtualPairCol([(column, Field.One)], Zero)
  }

  function SinglePreprocessed(column: nat): (r: VirtualPairCol)
    ensures r.columnWeights == [(Preprocessed(column), Field.One)] && r.constant == Zero
  {
    Single(Preprocessed(column))
  }

  function SingleMain(column: nat): (r: VirtualPairCol)
    ensures r.columnWeights == [(Main(column), Field.One)] && r.constant == Zero
  {
    Single(Main(column))
  }

  /** Weight one on every listed main column, in the order listed. */
  function SumMain(columns: seq<nat>): (r: VirtualPairCol)
    ensures |r.columnWeights| == |columns| && r.constant == Zero
    ensures forall k :: 0 <= k < |columns| ==> r.columnWeights[k] == (Main(columns[k]), Field.One)
  {
    NewMain(seq(|columns|, k requires 0 <= k < |columns| => (columns[k], Field.One)), Zero)
  }

  /** Weight one on every listed preprocessed column, in the order listed. */
  function SumPreprocessed(columns: seq<nat>): (r: VirtualPairCol)
    ensures |r.columnWeights| == |columns| && r.constant == Zero
    ensures forall k :: 0 <= k < |columns| ==> r.columnWeights[k] == (Preprocessed(columns[k]), Field.One)
  {
    NewPreprocessed(seq(|columns|, k requires 0 <= k < |columns| => (columns[k], Field.One)), Zero)
  }

  /** `a - b` over preprocessed columns. */
  function DiffPreprocessed(a: nat, b: nat): (r: VirtualPairCol)
    ensures r.columnWeights == [(Preprocessed(a), Field.One), (Preprocessed(b), NegOne)]
    ensures r.constant == Zero
  {
    NewPreprocessed([(a, Field.One), (b, NegOne)], Zero)
  }

  /** `a - b` over main trace columns. */
  function DiffMain(a: nat, b: nat): (r: VirtualPairCol)
    ensures r.columnWeights == [(Main(a), Field.One), (Main(b), NegOne)]
    ensures r.constant == Zero
  {
    NewMain([(a, Field.One), (b, NegOne)], Zero)
  }

  // ---------------------------------------------------------------------------
  // Evaluation, generic over the algebra of the result.
  // ---------------------------------------------------------------------------

  /**
   * What the evaluator needs of its result type `E` and row type `V`: field
   * elements and row values convert into `E`, `E` can be added, and `E` can
   * be multiplied by a field element.
   */
  datatype Algebra<!V, !E> = Algebra(
    fromField: Elem -> E,
    fromVar: V -> E,
    add: (E, E) -> E,
    scale: (E, Elem) -> E)

  /**
   * The value of `constant + sum of weight * column` in algebra `alg`,
   * accumulated over `entries` from first to last.
   */
  function Eval<V, E>(alg: Algebra<V, E>, entries: seq<(PairCol, Elem)>, constant: Elem,
                      preprocessed: seq<V>, main: seq<V>): E
    requires AllInRange(entries, |preprocessed|, |main|)
    decreases |entries|
  {
    if |entries| == 0 then alg.fromField(constant)
    else
      var (column, weight) := entries[|entries| - 1];
      alg.add(Eval(alg, entries[..|entries| - 1], constant, preprocessed, main),
              alg.scale(alg.fromVar(Get(column, preprocessed, main)), weight))
  }

  /** The library's `apply`: one pass over the weight list with an accumulator. */
  method Apply<V, E>(form: VirtualPairCol, alg: Algebra<V, E>, preprocessed: seq<V>, main: seq<V>)
    returns (result: E)
    requires AllInRange(form.columnWeights, |preprocessed|, |main|)
    ensures result == Eval(alg, form.columnWeights, form.constant, preprocessed, main)
  {
    var entries := form.columnWeights;
    result := alg.fromField(form.constant);
    var k := 0;
    while k < |entries|
      invariant 0 <= k <= |entries|
      invariant result == Eval(alg, entries[..k], form.constant, preprocessed, main)
    {
      var (column, weight) := entries[k];
      assert entries[..k + 1][..k] == entries[..k];
      result := alg.add(result, alg.scale(alg.fromVar(Get(column, preprocessed, main)), weight));
      k := k + 1;
    }
    assert entries[..k] == entries;
  }

  /** A form with no entries evaluates to its constant, whatever the rows. */
  lemma ConstantEval<V, E>(alg: Algebra<V, E>, x: Elem, preprocessed: seq<V>, main: seq<V>)
    ensures Eval(alg, Constant(x).columnWeights, Constant(x).constant, preprocessed, main)
         == alg.fromField(x)
    ensures Eval(alg, One().columnWeights, One().constant, preprocessed, main)
         == alg.fromField(Field.One)
  {
  }

  /**
   * Evaluation reads only the cells its entries name: two row pairs that agree
   * on those cells give the same value.
   */
  lemma {:induction false} EvalReadsOnlyNamedCells<V, E>(
    alg: Algebra<V, E>, entries: seq<(PairCol, Elem)>, constant: Elem,
    preprocessed: seq<V>, main: seq<V>, preprocessed': seq<V>, main': seq<V>)
    requires AllInRange(entries, |preprocessed|, |main|)
    requires AllInRange(entries, |preprocessed'|, |main'|)
    requires forall k :: 0 <= k < |entries| ==>
      Get(entries[k].0, preprocessed, main) == Get(entries[k].0, preprocessed', main')
    ensures Eval(alg, entries, constant, preprocessed, main)
         == Eval(alg, entries, constant, preprocessed', main')
    decreases |entries|
  {
    if |entries| > 0 {
      var n := |entries| - 1;
      EvalReadsOnlyNamedCells(alg, entries[..n], constant, preprocessed, main, preprocessed', main');
    }
  }

  /** A form built by `NewMain` never reads the preprocessed row. */
  lemma NewMainIgnoresPreprocessed<V, E>(
    alg: Algebra<V, E>, columnWeights: seq<(nat, Elem)>, constant: Elem,
    preprocessed: seq<V>, preprocessed': seq<V>, main: seq<V>)
    requires forall k :: 0 <= k < |columnWeights| ==> columnWeights[k].0 < |main|
    ensures AllInRange(NewMain(columnWeights, constant).columnWeights, |preprocessed|, |main|)
    ensures
      var form := NewMain(columnWeights, constant);
      AllInRange(form.columnWeights, |preprocessed'|, |main|) &&
      Eval(alg, form.columnWeights, constant, preprocessed, main)
      == Eval(alg, form.columnWeights, constant, preprocessed', main)
  {
    var form := NewMain(columnWeights, constant);
    EvalReadsOnlyNamedCells(alg, form.columnWeights, constant, preprocessed, main, preprocessed', main);
  }

  /** A form built by `NewPreprocessed` never reads the main row. */
  lemma NewPreprocessedIgnoresMain<V, E>(
    alg: Algebra<V, E>, columnWeights: seq<(nat, Elem)>, constant: Elem,
    preprocessed: seq<V>, main: seq<V>, main': seq<V>)
    requires forall k :: 0 <= k < |columnWeights| ==> columnWeights[k].0 < |preprocessed|
    ensures AllInRange(NewPreprocessed(columnWeights, constant).columnWeights, |preprocessed|, |main|)
    ensures
      var form := NewPreprocessed(columnWeights, constant);
      AllInRange(form.columnWeights, |preprocessed|, |main'|) &&
      Eval(alg, form.columnWeights, constant, preprocessed, main)
      == Eval(alg, form.columnWeights, constant, preprocessed, main')
  {
    var form := NewPreprocessed(columnWeights, constant);
    EvalReadsOnlyNamedCells(alg, form.columnWeights, constant, preprocessed, main, preprocessed, main');
  }
}
