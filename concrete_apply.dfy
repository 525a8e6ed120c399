/**
 * Evaluation of virtual columns over concrete field rows: the field as the
 * evaluator's algebra, the reference meaning `constant + sum of weight * value`,
 * and what each factory constructor evaluates to.
 */
module ConcreteApply {
  import opened Field
  import opened VirtualColumn

  /** The field itself as the algebra of results: rows hold field elements. */
  function FieldAlgebra(): Algebra<Elem, Elem>
  {
    Algebra(x => x, v => v, Add, Mul)
  }

  /** The value of a form on concrete rows, as `Apply` accumulates it. */
  function Value(form: VirtualPairCol, preprocessed: seq<Elem>, main: seq<Elem>): Elem
    requires AllInRange(form.columnWeights, |preprocessed|, |main|)
  {
    Eval(FieldAlgebra(), form.columnWeights, form.constant, preprocessed, main)
  }

  function Term(entry: (PairCol, Elem), preprocessed: seq<Elem>, main: seq<Elem>): Elem
    requires InRange(entry.0, |preprocessed|, |main|)
  {
    Mul(Get(entry.0, preprocessed, main), entry.1)
  }

  /** Reference definition: the sum of `weight * value` over the entries. */
  function WeightedSum(entries: seq<(PairCol, Elem)>, preprocessed: seq<Elem>, main: seq<Elem>): Elem
    requires AllInRange(entries, |preprocessed|, |main|)
  {
    if |entries| == 0 then Zero
    else Add(Term(entries[0], preprocessed, main), WeightedSum(entries[1..], preprocessed, main))
  }

  /** Adding the last entry on the right, as the evaluator's loop does. */
  lemma {:induction false} WeightedSumSnoc(entries: seq<(PairCol, Elem)>, preprocessed: seq<Elem>, main: seq<Elem>)
    requires |entries| > 0 && AllInRange(entries, |preprocessed|, |main|)
    ensures WeightedSum(entries, preprocessed, main)
         == Add(WeightedSum(entries[..|entries| - 1], preprocessed, main),
                Term(entries[|entries| - 1], preprocessed, main))
  {
    var n := |entries| - 1;
    if n == 0 {
      AddCommutes(Term(entries[0], preprocessed, main), Zero);
    } else {
      var t0 := Term(entries[0], preprocessed, main);
      var tn := Term(entries[n], preprocessed, main);
      WeightedSumSnoc(entries[1..], preprocessed, main);
      assert entries[1..][..n - 1] == entries[..n][1..];
      AddAssociates(t0, WeightedSum(entries[..n][1..], preprocessed, main), tn);
    }
  }

  /**
   * Evaluating in the field is the affine function the form denotes:
   * `constant + sum of weight * value`.
   */
  lemma {:induction false} EvalIsAffine(entries: seq<(PairCol, Elem)>, constant: Elem,
                                        preprocessed: seq<Elem>, main: seq<Elem>)
    requires AllInRange(entries, |preprocessed|, |main|)
    ensures Eval(FieldAlgebra(), entries, constant, preprocessed, main)
         == Add(constant, WeightedSum(entries, preprocessed, main))
    decreases |entries|
  {
    if |entries| == 0 {
      AddZero(constant);
    } else {
      var n := |entries| - 1;
      EvalIsAffine(entries[..n], constant, preprocessed, main);
      WeightedSumSnoc(entries, preprocessed, main);
      AddAssociates(constant, WeightedSum(entries[..n], preprocessed, main), Term(entries[n], preprocessed, main));
    }
  }

  /** `apply` with field rows and a field result. */
  method ApplyField(form: VirtualPairCol, preprocessed: seq<Elem>, main: seq<Elem>) returns (result: Elem)
    requires AllInRange(form.columnWeights, |preprocessed|, |main|)
    ensures result == Add(form.constant, WeightedSum(form.columnWeights, preprocessed, main))
  {
    result := Apply(form, FieldAlgebra(), preprocessed, main);
    EvalIsAffine(form.columnWeights, form.constant, preprocessed, main);
  }

  // ---------------------------------------------------------------------------
  // Entry order does not matter.
  // ---------------------------------------------------------------------------

  /** Pulls the entry at position `j` to the front of the sum. */
  lemma {:induction false} WeightedSumRemove(entries: seq<(PairCol, Elem)>, j: nat,
                                             preprocessed: seq<Elem>, main: seq<Elem>)
    requires j < |entries| && AllInRange(entries, |preprocessed|, |main|)
    ensures WeightedSum(entries, preprocessed, main)
         == Add(Term(entries[j], preprocessed, main),
                WeightedSum(entries[..j] + entries[j + 1..], preprocessed, main))
  {
    if j > 0 {
      var rest := entries[1..];
      WeightedSumRemove(rest, j - 1, preprocessed, main);
      var without := entries[..j] + entries[j + 1..];
      assert without[0] == entries[0];
      assert without[1..] == rest[..j - 1] + rest[j..];
      var t0 := Term(entries[0], preprocessed, main);
      var tj := Term(entries[j], preprocessed, main);
      var s := WeightedSum(rest[..j - 1] + rest[j..], preprocessed, main);
      AddAssociates(t0, tj, s);
      AddCommutes(t0, tj);
      AddAssociates(tj, t0, s);
    } else {
      assert entries[..0] + entries[1..] == entries[1..];
    }
  }

  /** Dropping the first element of one sequence and a copy of it from a permutation of it. */
  lemma RemoveMatching<T>(s: seq<T>, s': seq<T>, j: nat)
    requires multiset(s) == multiset(s') && |s| > 0 && j < |s'| && s'[j] == s[0]
    ensures multiset(s[1..]) == multiset(s'[..j] + s'[j + 1..])
  {
    assert s' == s'[..j] + [s[0]] + s'[j + 1..];
    assert s == [s[0]] + s[1..];
    assert multiset(s[1..]) == multiset(s) - multiset([s[0]]);
    assert multiset(s'[..j] + s'[j + 1..]) == multiset(s') - multiset([s[0]]);
  }

  /** Permuting the entries does not change their weighted sum. */
  lemma {:induction false} WeightedSumPermutation(entries: seq<(PairCol, Elem)>, entries': seq<(PairCol, Elem)>,
                                                  preprocessed: seq<Elem>, main: seq<Elem>)
    requires multiset(entries) == multiset(entries')
    requires AllInRange(entries, |preprocessed|, |main|) && AllInRange(entries', |preprocessed|, |main|)
    ensures WeightedSum(entries, preprocessed, main) == WeightedSum(entries', preprocessed, main)
    decreases |entries|
  {
    if |entries| > 0 {
      var x := entries[0];
      assert x in multiset(entries');
      var j :| 0 <= j < |entries'| && entries'[j] == x;
      var rest' := entries'[..j] + entries'[j + 1..];
      RemoveMatching(entries, entries', j);
      WeightedSumPermutation(entries[1..], rest', preprocessed, main);
      WeightedSumRemove(entries', j, preprocessed, main);
    } else {
      assert |entries'| == |multiset(entries')| == 0;
    }
  }

  /** The value of a form does not depend on the order of its entries. */
  lemma ApplyOrderIndependent(entries: seq<(PairCol, Elem)>, entries': seq<(PairCol, Elem)>, constant: Elem,
                              preprocessed: seq<Elem>, main: seq<Elem>)
    requires multiset(entries) == multiset(entries')
    requires AllInRange(entries, |preprocessed|, |main|) && AllInRange(entries', |preprocessed|, |main|)
    ensures Eval(FieldAlgebra(), entries, constant, preprocessed, main)
         == Eval(FieldAlgebra(), entries', constant, preprocessed, main)
  {
    EvalIsAffine(entries, constant, preprocessed, main);
    EvalIsAffine(entries', constant, preprocessed, main);
    WeightedSumPermutation(entries, entries', preprocessed, main);
  }

  // ---------------------------------------------------------------------------
  // What the factory constructors evaluate to.
  // ---------------------------------------------------------------------------

  /** `constant(x)` is `x` and `one()` is 1 on any rows, empty ones included. */
  lemma ConstantValue(x: Elem, preprocessed: seq<Elem>, main: seq<Elem>)
    ensures Value(Constant(x), preprocessed, main) == x
    ensures Value(VirtualColumn.One(), preprocessed, main) == Field.One
  {
    ConstantEval(FieldAlgebra(), x, preprocessed, main);
  }

  lemma SingleValue(column: PairCol, preprocessed: seq<Elem>, main: seq<Elem>)
    requires InRange(column, |preprocessed|, |main|)
    ensures AllInRange(Single(column).columnWeights, |preprocessed|, |main|)
    ensures Value(Single(column), preprocessed, main) == Get(column, preprocessed, main)
  {
    var form := Single(column);
    var v := Get(column, preprocessed, main);
    assert form.columnWeights[..0] == [];
    assert Eval(FieldAlgebra(), form.columnWeights[..0], Zero, preprocessed, main) == Zero;
    MulOne(v);
    AddZero(v);
    assert Value(form, preprocessed, main) == Add(Zero, Mul(v, Field.One));
  }

  lemma SingleMainValue(i: nat, preprocessed: seq<Elem>, main: seq<Elem>)
    requires i < |main|
    ensures AllInRange(SingleMain(i).columnWeights, |preprocessed|, |main|)
    ensures Value(SingleMain(i), preprocessed, main) == main[i]
  {
    SingleValue(Main(i), preprocessed, main);
  }

  lemma SinglePreprocessedValue(i: nat, preprocessed: seq<Elem>, main: seq<Elem>)
    requires i < |preprocessed|
    ensures AllInRange(SinglePreprocessed(i).columnWeights, |preprocessed|, |main|)
    ensures Value(SinglePreprocessed(i), preprocessed, main) == preprocessed[i]
  {
    SingleValue(Preprocessed(i), preprocessed, main);
  }

  /** Reference definition: the sum of the listed cells of one row. */
  function RowSum(row: seq<Elem>, columns: seq<nat>): Elem
    requires forall k :: 0 <= k < |columns| ==> columns[k] < |row|
  {
    if |columns| == 0 then Zero else Add(row[columns[0]], RowSum(row, columns[1..]))
  }

  lemma {:induction false} RowSumRemove(row: seq<Elem>, columns: seq<nat>, j: nat)
    requires j < |columns| && forall k :: 0 <= k < |columns| ==> columns[k] < |row|
    ensures RowSum(row, columns) == Add(row[columns[j]], RowSum(row, columns[..j] + columns[j + 1..]))
  {
    if j > 0 {
      var rest := columns[1..];
      RowSumRemove(row, rest, j - 1);
      var without := columns[..j] + columns[j + 1..];
      assert without[0] == columns[0];
      assert without[1..] == rest[..j - 1] + rest[j..];
      var s := RowSum(row, rest[..j - 1] + rest[j..]);
      AddAssociates(row[columns[0]], row[columns[j]], s);
      AddCommutes(row[columns[0]], row[columns[j]]);
      AddAssociates(row[columns[j]], row[columns[0]], s);
    } else {
      assert columns[..0] + columns[1..] == columns[1..];
    }
  }

  /** Summing the listed cells does not depend on the order of the list. */
  lemma {:induction false} RowSumPermutation(row: seq<Elem>, columns: seq<nat>, columns': seq<nat>)
    requires multiset(columns) == multiset(columns')
    requires forall k :: 0 <= k < |columns| ==> columns[k] < |row|
    requires forall k :: 0 <= k < |columns'| ==> columns'[k] < |row|
    ensures RowSum(row, columns) == RowSum(row, columns')
    decreases |columns|
  {
    if |columns| > 0 {
      var x := columns[0];
      assert x in multiset(columns');
      var j :| 0 <= j < |columns'| && columns'[j] == x;
      var rest' := columns'[..j] + columns'[j + 1..];
      RemoveMatching(columns, columns', j);
      forall k | 0 <= k < |rest'|
        ensures rest'[k] < |row|
      {
        if k < j { assert rest'[k] == columns'[k]; } else { assert rest'[k] == columns'[k + 1]; }
      }
      RowSumPermutation(row, columns[1..], rest');
      RowSumRemove(row, columns', j);
    } else {
      assert |columns'| == |multiset(columns')| == 0;
    }
  }

  /** The weighted sum of an all-ones list over one table is the plain row sum. */
  lemma {:induction false} WeightOneSum(entries: seq<(PairCol, Elem)>, columns: seq<nat>, onMain: bool,
                                       preprocessed: seq<Elem>, main: seq<Elem>)
    requires |entries| == |columns|
    requires forall k :: 0 <= k < |columns| ==>
      entries[k] == (if onMain then Main(columns[k]) else Preprocessed(columns[k]), Field.One)
    requires forall k :: 0 <= k < |columns| ==> columns[k] < |if onMain then main else preprocessed|
    ensures AllInRange(entries, |preprocessed|, |main|)
    ensures WeightedSum(entries, preprocessed, main) == RowSum(if onMain then main else preprocessed, columns)
    decreases |columns|
  {
    if |columns| > 0 {
      WeightOneSum(entries[1..], columns[1..], onMain, preprocessed, main);
      MulOne(Get(entries[0].0, preprocessed, main));
    }
  }

  /** `sum_main(cols)` evaluates to the sum of the listed main cells. */
  lemma SumMainValue(columns: seq<nat>, preprocessed: seq<Elem>, main: seq<Elem>)
    requires forall k :: 0 <= k < |columns| ==> columns[k] < |main|
    ensures AllInRange(SumMain(columns).columnWeights, |preprocessed|, |main|)
    ensures Value(SumMain(columns), preprocessed, main) == RowSum(main, columns)
  {
    var form := SumMain(columns);
    WeightOneSum(form.columnWeights, columns, true, preprocessed, main);
    EvalIsAffine(form.columnWeights, Zero, preprocessed, main);
    AddZero(RowSum(main, columns));
  }

  /** `sum_preprocessed(cols)` evaluates to the sum of the listed preprocessed cells. */
  lemma SumPreprocessedValue(columns: seq<nat>, preprocessed: seq<Elem>, main: seq<Elem>)
    requires forall k :: 0 <= k < |columns| ==> columns[k] < |preprocessed|
    ensures AllInRange(SumPreprocessed(columns).columnWeights, |preprocessed|, |main|)
    ensures Value(SumPreprocessed(columns), preprocessed, main) == RowSum(preprocessed, columns)
  {
    var form := SumPreprocessed(columns);
    WeightOneSum(form.columnWeights, columns, false, preprocessed, main);
    EvalIsAffine(form.columnWeights, Zero, preprocessed, main);
    AddZero(RowSum(preprocessed, columns));
  }

  /** Permuting the column list of `sum_main` does not change its value. */
  lemma SumMainOrderIndependent(columns: seq<nat>, columns': seq<nat>, preprocessed: seq<Elem>, main: seq<Elem>)
    requires multiset(columns) == multiset(columns')
    requires forall k :: 0 <= k < |columns| ==> columns[k] < |main|
    requires forall k :: 0 <= k < |columns'| ==> columns'[k] < |main|
    ensures AllInRange(SumMain(columns).columnWeights, |preprocessed|, |main|)
    ensures AllInRange(SumMain(columns').columnWeights, |preprocessed|, |main|)
    ensures Value(SumMain(columns), preprocessed, main) == Value(SumMain(columns'), preprocessed, main)
  {
    SumMainValue(columns, preprocessed, main);
    SumMainValue(columns', preprocessed, main);
    RowSumPermutation(main, columns, columns');
  }

  /** Permuting the column list of `sum_preprocessed` does not change its value. */
  lemma SumPreprocessedOrderIndependent(columns: seq<nat>, columns': seq<nat>,
                                        preprocessed: seq<Elem>, main: seq<Elem>)
    requires multiset(columns) == multiset(columns')
    requires forall k :: 0 <= k < |columns| ==> columns[k] < |preprocessed|
    requires forall k :: 0 <= k < |columns'| ==> columns'[k] < |preprocessed|
    ensures AllInRange(SumPreprocessed(columns).columnWeights, |preprocessed|, |main|)
    ensures AllInRange(SumPreprocessed(columns').columnWeights, |preprocessed|, |main|)
    ensures Value(SumPreprocessed(columns), preprocessed, main)
         == Value(SumPreprocessed(columns'), preprocessed, main)
  {
    SumPreprocessedValue(columns, preprocessed, main);
    SumPreprocessedValue(columns', preprocessed, main);
    RowSumPermutation(preprocessed, columns, columns');
  }

  /** The value of weights `[1, -1]` on two cells is their difference. */
  lemma DiffValue(form: VirtualPairCol, a: PairCol, b: PairCol, preprocessed: seq<Elem>, main: seq<Elem>)
    requires form.columnWeights == [(a, Field.One), (b, NegOne)] && form.constant == Zero
    requires InRange(a, |preprocessed|, |main|) && InRange(b, |preprocessed|, |main|)
    ensures AllInRange(form.columnWeights, |preprocessed|, |main|)
    ensures Value(form, preprocessed, main) == Sub(Get(a, preprocessed, main), Get(b, preprocessed, main))
  {
    var va := Get(a, preprocessed, main);
    var vb := Get(b, preprocessed, main);
    var entries: seq<(PairCol, Elem)> := form.columnWeights;
    assert entries[..1][..0] == [];
    assert entries[..1] == [(a, Field.One)];
    MulOne(va);
    AddZero(va);
    MulNegOne(vb);
    assert Eval(FieldAlgebra(), entries[..1][..0], Zero, preprocessed, main) == Zero;
    assert Eval(FieldAlgebra(), entries[..1], Zero, preprocessed, main) == va;
    assert Value(form, preprocessed, main) == Add(va, Mul(vb, NegOne));
  }

  /** `diff_main(a, b)` evaluates to `main[a] - main[b]`. */
  lemma DiffMainValue(a: nat, b: nat, preprocessed: seq<Elem>, main: seq<Elem>)
    requires a < |main| && b < |main|
    ensures AllInRange(DiffMain(a, b).columnWeights, |preprocessed|, |main|)
    ensures Value(DiffMain(a, b), preprocessed, main) == Sub(main[a], main[b])
  {
    DiffValue(DiffMain(a, b), Main(a), Main(b), preprocessed, main);
  }

  /** `diff_preprocessed(a, b)` evaluates to `preprocessed[a] - preprocessed[b]`. */
  lemma DiffPreprocessedValue(a: nat, b: nat, preprocessed: seq<Elem>, main: seq<Elem>)
    requires a < |preprocessed| && b < |preprocessed|
    ensures AllInRange(DiffPreprocessed(a, b).columnWeights, |preprocessed|, |main|)
    ensures Value(DiffPreprocessed(a, b), preprocessed, main) == Sub(preprocessed[a], preprocessed[b])
  {
    DiffValue(DiffPreprocessed(a, b), Preprocessed(a), Preprocessed(b), preprocessed, main);
  }

  /** Swapping the columns of `diff_main` negates its value. */
  lemma DiffMainAntisymmetric(a: nat, b: nat, preprocessed: seq<Elem>, main: seq<Elem>)
    requires a < |main| && b < |main|
    ensures AllInRange(DiffMain(a, b).columnWeights, |preprocessed|, |main|)
    ensures AllInRange(DiffMain(b, a).columnWeights, |preprocessed|, |main|)
    ensures Value(DiffMain(a, b), preprocessed, main) == Neg(Value(DiffMain(b, a), preprocessed, main))
  {
    DiffMainValue(a, b, preprocessed, main);
    DiffMainValue(b, a, preprocessed, main);
    NegOfSub(main[b], main[a]);
  }

  /** Swapping the columns of `diff_preprocessed` negates its value. */
  lemma DiffPreprocessedAntisymmetric(a: nat, b: nat, preprocessed: seq<Elem>, main: seq<Elem>)
    requires a < |preprocessed| && b < |preprocessed|
    ensures AllInRange(DiffPreprocessed(a, b).columnWeights, |preprocessed|, |main|)
    ensures AllInRange(DiffPreprocessed(b, a).columnWeights, |preprocessed|, |main|)
    ensures Value(DiffPreprocessed(a, b), preprocessed, main)
         == Neg(Value(DiffPreprocessed(b, a), preprocessed, main))
  {
    DiffPreprocessedValue(a, b, preprocessed, main);
    DiffPreprocessedValue(b, a, preprocessed, main);
    NegOfSub(preprocessed[b], preprocessed[a]);
  }

  // ---------------------------------------------------------------------------
  // Worked examples.
  // ---------------------------------------------------------------------------

  /** Entries `[(Main(0), 1), (Main(1), -1)]` and constant 1 on main row [5, 2]. */
  lemma DiffPlusOneExample()
    ensures Value(New([(Main(0), Field.One), (Main(1), NegOne)], Field.One), [3], [5, 2]) == 4
  {
    var form := New([(Main(0), Field.One), (Main(1), NegOne)], Field.One);
    var entries: seq<(PairCol, Elem)> := form.columnWeights;
    MulOne(5);
    MulNegOne(2);
    assert entries[..1][..0] == [];
    assert Eval(FieldAlgebra(), entries[..1], Field.One, [3], [5, 2]) == 6;
    assert Value(form, [3], [5, 2]) == Add(6, Neg(2));
  }

  /** `sum_preprocessed([0])` on preprocessed row [6]. */
  lemma SumPreprocessedExample()
    ensures Value(SumPreprocessed([0]), [6], []) == 6
  {
    SumPreprocessedValue([0], [6], []);
  }
}
