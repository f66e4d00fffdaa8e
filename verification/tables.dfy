/** The `Votos_unidos` sheet as an immutable table, the load-time pipeline
    that normalizes it (`map(normalizar_estado)`, `map(normalizar_bloque)`,
    `agregar_categoria_cambio`), and the two generic reductions every
    aggregate is built from: counting and filtering rows. */
module Tables {
  import opened Text
  import opened Normalize
  import opened Change

  datatype Option<T> = None | Some(value: T)

  /** One legislator: `nombre`, `bloque_1`, `bloque_norm`, `voto_1`,
      `voto_2` and, when the column exists, `categoria_cambio`. */
  datatype Row = Row(
    name: string,
    block: string,
    blockNorm: string,
    vote1: string,
    vote2: string,
    category: Option<string>)

  /** Whether the sheet has a `categoria_cambio` column, and its rows. */
  datatype Table = Table(hasCategoryColumn: bool, rows: seq<Row>)

  /** A row carries a category exactly when the table has the column. */
  predicate WellFormed(t: Table) {
    forall i :: 0 <= i < |t.rows| ==> (t.rows[i].category.Some? <==> t.hasCategoryColumn)
  }

  /** Every row's category is the classifier's label for its two votes. */
  predicate Categorized(rows: seq<Row>) {
    forall i :: 0 <= i < |rows| ==>
      rows[i].category == Some(ClassifyChange(rows[i].vote1, rows[i].vote2).Label())
  }

  // ---------------------------------------------------------------------
  // agregar_categoria_cambio and the load pipeline
  // ---------------------------------------------------------------------

  function WithCategory(r: Row): Row {
    r.(category := Some(ClassifyChange(r.vote1, r.vote2).Label()))
  }

  /** A table that already has the column is returned as it is; otherwise
      the column is added and every other cell is left alone. */
  function AddChangeCategory(t: Table): (r: Table)
    ensures t.hasCategoryColumn ==> r == t
    ensures r.hasCategoryColumn
    ensures |r.rows| == |t.rows|
    ensures !t.hasCategoryColumn ==> Categorized(r.rows)
    ensures forall i :: 0 <= i < |t.rows| ==>
              r.rows[i] == t.rows[i].(category := r.rows[i].category)
    ensures WellFormed(t) ==> WellFormed(r)
  {
    if t.hasCategoryColumn then t
    else Table(true, seq(|t.rows|, i requires 0 <= i < |t.rows| => WithCategory(t.rows[i])))
  }

  lemma AddChangeCategoryIdempotent(t: Table)
    ensures AddChangeCategory(AddChangeCategory(t)) == AddChangeCategory(t)
  {}

  function NormalizeRow(r: Row): Row {
    r.(vote1 := NormalizeState(r.vote1),
       vote2 := NormalizeState(r.vote2),
       blockNorm := NormalizeBlock(r.block))
  }

  /** The four load-time statements run before anything is rendered. */
  function PrepareTable(t: Table): (r: Table)
    ensures |r.rows| == |t.rows|
    ensures r.hasCategoryColumn
    ensures forall i :: 0 <= i < |t.rows| ==>
              && r.rows[i].name == t.rows[i].name
              && r.rows[i].block == t.rows[i].block
              && r.rows[i].vote1 == CleanState(t.rows[i].vote1)
              && r.rows[i].vote2 == CleanState(t.rows[i].vote2)
              && Canonical(r.rows[i].blockNorm)
              && Split(r.rows[i].blockNorm) == UpperWords(Split(t.rows[i].block))
    ensures !t.hasCategoryColumn ==> Categorized(r.rows)
    ensures t.hasCategoryColumn ==> forall i :: 0 <= i < |t.rows| ==> r.rows[i].category == t.rows[i].category
    ensures WellFormed(t) ==> WellFormed(r)
  {
    AddChangeCategory(Table(t.hasCategoryColumn,
      seq(|t.rows|, i requires 0 <= i < |t.rows| => NormalizeRow(t.rows[i]))))
  }

  /** Loading an already prepared table again changes nothing. */
  lemma PrepareTableIdempotent(t: Table)
    ensures PrepareTable(PrepareTable(t)) == PrepareTable(t)
  {
    var p := PrepareTable(t);
    var q := PrepareTable(p);
    forall i | 0 <= i < |t.rows|
      ensures q.rows[i] == p.rows[i]
    {
      NormalizeStateIdempotent(t.rows[i].vote1);
      NormalizeStateIdempotent(t.rows[i].vote2);
    }
  }

  // ---------------------------------------------------------------------
  // Counting and filtering (`(mask).sum()` and `df[mask]`)
  // ---------------------------------------------------------------------

  /** Number of rows satisfying `p`. */
  function CountIf(rows: seq<Row>, p: Row -> bool): (n: nat)
    ensures n <= |rows|
    ensures n == |rows| <==> forall i :: 0 <= i < |rows| ==> p(rows[i])
    ensures n == 0 <==> forall i :: 0 <= i < |rows| ==> !p(rows[i])
  {
    if |rows| == 0 then 0
    else (if p(rows[0]) then 1 else 0) + CountIf(rows[1..], p)
  }

  /** `df[mask]`: the rows satisfying `p`, in their original order. A row
      that satisfies `p` is kept as many times as it occurs; any other row
      is dropped. */
  function Filter(rows: seq<Row>, p: Row -> bool): (r: seq<Row>)
    ensures |r| == CountIf(rows, p)
    ensures forall i :: 0 <= i < |r| ==> p(r[i])
    ensures forall x :: x in r <==> x in rows && p(x)
    ensures forall x :: multiset(r)[x] == (if p(x) then multiset(rows)[x] else 0)
  {
    if |rows| == 0 then []
    else
      var rest := Filter(rows[1..], p);
      assert rows == [rows[0]] + rows[1..];
      assert multiset(rows) == multiset{rows[0]} + multiset(rows[1..]);
      if p(rows[0]) then
        assert multiset([rows[0]] + rest) == multiset{rows[0]} + multiset(rest);
        [rows[0]] + rest
      else rest
  }

  /** Filtering keeps the order of the table: the rows kept from a first
      part all come before those kept from the part after it. */
  lemma {:induction false} FilterAppend(a: seq<Row>, b: seq<Row>, p: Row -> bool)
    ensures Filter(a + b, p) == Filter(a, p) + Filter(b, p)
    decreases |a|
  {
    if |a| == 0 {
      assert a + b == b;
    } else {
      assert (a + b)[1..] == a[1..] + b;
      FilterAppend(a[1..], b, p);
    }
  }

  /** A mask every row satisfies keeps the whole table. */
  lemma {:induction false} FilterAll(rows: seq<Row>, p: Row -> bool)
    requires forall i :: 0 <= i < |rows| ==> p(rows[i])
    ensures Filter(rows, p) == rows
  {
    if |rows| > 0 {
      FilterAll(rows[1..], p);
      assert [rows[0]] + rows[1..] == rows;
    }
  }

  function And(p: Row -> bool, q: Row -> bool): Row -> bool {
    (r: Row) => p(r) && q(r)
  }

  function Or(p: Row -> bool, q: Row -> bool): Row -> bool {
    (r: Row) => p(r) || q(r)
  }

  /** Masks that agree on every row count the same. */
  lemma {:induction false} CountIfSame(rows: seq<Row>, p: Row -> bool, q: Row -> bool)
    requires forall i :: 0 <= i < |rows| ==> p(rows[i]) == q(rows[i])
    ensures CountIf(rows, p) == CountIf(rows, q)
  {
    if |rows| > 0 {
      CountIfSame(rows[1..], p, q);
    }
  }

  /** Disjoint masks: the count of the union is the sum of the counts. */
  lemma {:induction false} CountIfOr(rows: seq<Row>, p: Row -> bool, q: Row -> bool)
    requires forall i :: 0 <= i < |rows| ==> !(p(rows[i]) && q(rows[i]))
    ensures CountIf(rows, Or(p, q)) == CountIf(rows, p) + CountIf(rows, q)
  {
    if |rows| > 0 {
      CountIfOr(rows[1..], p, q);
    }
  }

  /** A mask implied by another counts at least as many rows. */
  lemma {:induction false} CountIfMono(rows: seq<Row>, p: Row -> bool, q: Row -> bool)
    requires forall i :: 0 <= i < |rows| ==> p(rows[i]) ==> q(rows[i])
    ensures CountIf(rows, p) <= CountIf(rows, q)
  {
    if |rows| > 0 {
      CountIfMono(rows[1..], p, q);
    }
  }

  /** Counting within a filtered table is counting the conjunction. */
  lemma {:induction false} CountIfFilter(rows: seq<Row>, p: Row -> bool, q: Row -> bool)
    ensures CountIf(Filter(rows, p), q) == CountIf(rows, And(p, q))
  {
    if |rows| > 0 {
      CountIfFilter(rows[1..], p, q);
      if p(rows[0]) {
        assert ([rows[0]] + Filter(rows[1..], p))[1..] == Filter(rows[1..], p);
      }
    }
  }
}
