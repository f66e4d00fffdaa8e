/** The reductions the dashboard renders: `conteos_por_estado`,
    `calcular_kpis_basicos`, the transition heatmap with its block filter,
    the detail-table filter and the "kept the same decisive vote" filter. */
module Aggregates {
  import opened Normalize
  import opened Change
  import opened Tables

  // ---------------------------------------------------------------------
  // Row masks
  // ---------------------------------------------------------------------

  /** The two votes being compared: `voto_1` and `voto_2`. */
  datatype Event = First | Second

  function VoteOf(r: Row, ev: Event): string {
    match ev
    case First => r.vote1
    case Second => r.vote2
  }

  /** `df[voto] == e`. */
  function VoteIs(ev: Event, e: string): Row -> bool {
    (r: Row) => VoteOf(r, ev) == e
  }

  function VoteRecognized(ev: Event): Row -> bool {
    (r: Row) => Recognized(VoteOf(r, ev))
  }

  /** `(df["voto_1"] == a) & (df["voto_2"] == b)`. */
  function Transition(a: string, b: string): Row -> bool {
    (r: Row) => r.vote1 == a && r.vote2 == b
  }

  const SameVote: Row -> bool := (r: Row) => r.vote1 == r.vote2

  const Deactivating: Row -> bool := (r: Row) => IsVoting(r.vote1) && IsNonVoting(r.vote2)

  const Activating: Row -> bool := (r: Row) => IsNonVoting(r.vote1) && IsVoting(r.vote2)

  const BothRecognized: Row -> bool := (r: Row) => Recognized(r.vote1) && Recognized(r.vote2)

  /** The changes the four non-diagonal KPIs count. */
  const KpiChange: Row -> bool := (r: Row) =>
    || (r.vote1 == FAVOR && r.vote2 == CONTRA) || (r.vote1 == CONTRA && r.vote2 == FAVOR)
    || Deactivating(r) || Activating(r)

  function CategoryIs(c: Category): Row -> bool {
    (r: Row) => r.category == Some(c.Label())
  }

  function CategoryCount(rows: seq<Row>, c: Category): nat {
    CountIf(rows, CategoryIs(c))
  }

  /** Four pairwise disjoint masks whose union is `q` split its count. */
  lemma CountIfFour(rows: seq<Row>, p0: Row -> bool, p1: Row -> bool, p2: Row -> bool,
                    p3: Row -> bool, q: Row -> bool)
    requires forall i :: 0 <= i < |rows| ==>
               (q(rows[i]) <==> p0(rows[i]) || p1(rows[i]) || p2(rows[i]) || p3(rows[i]))
    requires forall i :: 0 <= i < |rows| ==>
               && !(p0(rows[i]) && p1(rows[i])) && !(p0(rows[i]) && p2(rows[i]))
               && !(p0(rows[i]) && p3(rows[i])) && !(p1(rows[i]) && p2(rows[i]))
               && !(p1(rows[i]) && p3(rows[i])) && !(p2(rows[i]) && p3(rows[i]))
    ensures CountIf(rows, q) == CountIf(rows, p0) + CountIf(rows, p1)
                                + CountIf(rows, p2) + CountIf(rows, p3)
  {
    CountIfOr(rows, p0, p1);
    CountIfOr(rows, Or(p0, p1), p2);
    CountIfOr(rows, Or(Or(p0, p1), p2), p3);
    CountIfSame(rows, Or(Or(Or(p0, p1), p2), p3), q);
  }

  // ---------------------------------------------------------------------
  // conteos_por_estado
  // ---------------------------------------------------------------------

  /** The four per-label counts of one event. */
  datatype StateCounts = StateCounts(favor: nat, contra: nat, ausente: nat, licencia: nat) {
    function Total(): nat {
      favor + contra + ausente + licencia
    }
  }

  /** The eight values `conteos_por_estado` returns. */
  datatype VoteCounts = VoteCounts(first: StateCounts, second: StateCounts)

  /** Exact-match counts against the four labels: an unrecognised vote falls
      in none of the buckets, so the total is the number of recognised votes. */
  function CountStates(rows: seq<Row>, ev: Event): (c: StateCounts)
    ensures c.Total() == CountIf(rows, VoteRecognized(ev))
    ensures c.Total() <= |rows|
    ensures c.Total() == |rows| <==> forall i :: 0 <= i < |rows| ==> Recognized(VoteOf(rows[i], ev))
  {
    EstadosDistinct();
    CountIfFour(rows, VoteIs(ev, FAVOR), VoteIs(ev, CONTRA), VoteIs(ev, AUSENTE),
                VoteIs(ev, LICENCIA), VoteRecognized(ev));
    StateCounts(CountIf(rows, VoteIs(ev, FAVOR)), CountIf(rows, VoteIs(ev, CONTRA)),
                CountIf(rows, VoteIs(ev, AUSENTE)), CountIf(rows, VoteIs(ev, LICENCIA)))
  }

  function CountsByState(rows: seq<Row>): (c: VoteCounts)
    ensures c.first.Total() <= |rows| && c.second.Total() <= |rows|
  {
    VoteCounts(CountStates(rows, First), CountStates(rows, Second))
  }

  // ---------------------------------------------------------------------
  // calcular_kpis_basicos
  // ---------------------------------------------------------------------

  /** `total_iguales, favor_a_contra, contra_a_favor, se_desactivan, se_activan`. */
  datatype Kpis = Kpis(sameVote: nat, favorToContra: nat, contraToFavor: nat,
                       deactivated: nat, activated: nat)
  {
    function Sum(): nat {
      sameVote + favorToContra + contraToFavor + deactivated + activated
    }
  }

  /** The five masks describe disjoint sets of rows, so no row is counted
      twice and the five counts together never exceed the row count. */
  function BasicKpis(rows: seq<Row>): (k: Kpis)
    ensures k.Sum() <= |rows|
  {
    EstadosDistinct();
    var k := Kpis(CountIf(rows, SameVote), CountIf(rows, Transition(FAVOR, CONTRA)),
                  CountIf(rows, Transition(CONTRA, FAVOR)), CountIf(rows, Deactivating),
                  CountIf(rows, Activating));
    CountIfFour(rows, Transition(FAVOR, CONTRA), Transition(CONTRA, FAVOR), Deactivating,
                Activating, KpiChange);
    CountIfOr(rows, SameVote, KpiChange);
    k
  }

  /** Under the classifier's column, a row carries the label of `c` exactly
      when the classifier puts its votes in `c`. */
  lemma CategoryMatchesClassifier(rows: seq<Row>, c: Category)
    requires Categorized(rows)
    ensures forall i :: 0 <= i < |rows| ==>
              (CategoryIs(c)(rows[i]) <==> ClassifyChange(rows[i].vote1, rows[i].vote2) == c)
  {
    forall b: Category {
      LabelInjective(b, c);
    }
  }

  /** Once the category column was computed by the classifier, each KPI
      equals the number of rows carrying the matching label. */
  lemma {:induction false} KpisAgreeWithClassifier(rows: seq<Row>)
    requires Categorized(rows)
    ensures BasicKpis(rows).sameVote == CategoryCount(rows, Unchanged)
    ensures BasicKpis(rows).favorToContra + BasicKpis(rows).contraToFavor
            == CategoryCount(rows, FlipFavorContra)
    ensures BasicKpis(rows).deactivated == CategoryCount(rows, Deactivated)
    ensures BasicKpis(rows).activated == CategoryCount(rows, Activated)
  {
    EstadosDistinct();
    CategoryMatchesClassifier(rows, Unchanged);
    CategoryMatchesClassifier(rows, FlipFavorContra);
    CategoryMatchesClassifier(rows, Deactivated);
    CategoryMatchesClassifier(rows, Activated);
    CountIfSame(rows, SameVote, CategoryIs(Unchanged));
    CountIfSame(rows, Deactivating, CategoryIs(Deactivated));
    CountIfSame(rows, Activating, CategoryIs(Activated));
    CountIfOr(rows, Transition(FAVOR, CONTRA), Transition(CONTRA, FAVOR));
    CountIfSame(rows, Or(Transition(FAVOR, CONTRA), Transition(CONTRA, FAVOR)),
                CategoryIs(FlipFavorContra));
  }

  /** With the classifier's column, every row is in exactly one of the six
      categories. */
  lemma {:induction false} CategoriesPartitionRows(rows: seq<Row>)
    requires Categorized(rows)
    ensures CategoryCount(rows, Unchanged) + CategoryCount(rows, FlipFavorContra)
            + CategoryCount(rows, Activated) + CategoryCount(rows, Deactivated)
            + CategoryCount(rows, NonVoteTypeChange) + CategoryCount(rows, OtherChange)
            == |rows|
  {
    CategoryMatchesClassifier(rows, Unchanged);
    CategoryMatchesClassifier(rows, FlipFavorContra);
    CategoryMatchesClassifier(rows, Activated);
    CategoryMatchesClassifier(rows, Deactivated);
    CategoryMatchesClassifier(rows, NonVoteTypeChange);
    CategoryMatchesClassifier(rows, OtherChange);
    var first4 := Or(Or(Or(CategoryIs(Unchanged), CategoryIs(FlipFavorContra)),
                        CategoryIs(Activated)), CategoryIs(Deactivated));
    var last2 := Or(CategoryIs(NonVoteTypeChange), CategoryIs(OtherChange));
    CountIfFour(rows, CategoryIs(Unchanged), CategoryIs(FlipFavorContra),
                CategoryIs(Activated), CategoryIs(Deactivated), first4);
    CountIfOr(rows, CategoryIs(NonVoteTypeChange), CategoryIs(OtherChange));
    CountIfOr(rows, first4, last2);
    assert CountIf(rows, Or(first4, last2)) == |rows|;
  }

  // ---------------------------------------------------------------------
  // The transition heatmap
  // ---------------------------------------------------------------------

  /** `g` holds one entry per vote pair that occurs in `rows`, with the
      number of rows showing that pair. */
  ghost predicate IsGroupSizes(g: map<(string, string), nat>, rows: seq<Row>) {
    forall k :: (k in g <==> CountIf(rows, Transition(k.0, k.1)) > 0)
                && (k in g ==> g[k] == CountIf(rows, Transition(k.0, k.1)))
  }

  /** `groupby(["voto_1", "voto_2"]).size()`, built row by row: one entry
      per vote pair that occurs, unrecognised pairs included, holding the
      number of rows with that pair. */
  function GroupSizes(rows: seq<Row>): (g: map<(string, string), nat>)
    ensures IsGroupSizes(g, rows)
  {
    if |rows| == 0 then map[]
    else
      var g := GroupSizes(rows[1..]);
      var k := (rows[0].vote1, rows[0].vote2);
      var g' := g[k := (if k in g then g[k] else 0) + 1];
      GroupSizesStep(rows, g);
      g'
  }

  /** Adding the first row to the group sizes of the rest. */
  lemma GroupSizesStep(rows: seq<Row>, g: map<(string, string), nat>)
    requires |rows| > 0 && IsGroupSizes(g, rows[1..])
    ensures var k := (rows[0].vote1, rows[0].vote2);
            IsGroupSizes(g[k := (if k in g then g[k] else 0) + 1], rows)
  {
    var k := (rows[0].vote1, rows[0].vote2);
    var g' := g[k := (if k in g then g[k] else 0) + 1];
    forall k': (string, string)
      ensures (k' in g' <==> CountIf(rows, Transition(k'.0, k'.1)) > 0)
              && (k' in g' ==> g'[k'] == CountIf(rows, Transition(k'.0, k'.1)))
    {
      assert CountIf(rows, Transition(k'.0, k'.1))
             == (if Transition(k'.0, k'.1)(rows[0]) then 1 else 0)
                + CountIf(rows[1..], Transition(k'.0, k'.1));
    }
  }

  /** `.unstack(fill_value=0).reindex(index=ESTADOS, columns=ESTADOS,
      fill_value=0)`: the 4x4 grid over `ESTADOS`, reading each cell from
      the group sizes and filling a missing pair with 0. Keys with an
      unrecognised side are never read. */
  function Reindex(g: map<(string, string), nat>): seq<seq<nat>> {
    seq(|ESTADOS|, i requires 0 <= i < |ESTADOS| =>
      seq(|ESTADOS|, j requires 0 <= j < |ESTADOS| =>
        var k := (ESTADOS[i], ESTADOS[j]);
        if k in g then g[k] else 0))
  }

  /** The heatmap: entry `[i][j]` counts exactly the rows that went from
      `ESTADOS[i]` to `ESTADOS[j]`, whether or not the pair occurred. */
  function TransitionMatrix(rows: seq<Row>): (m: seq<seq<nat>>)
    ensures |m| == |ESTADOS|
    ensures forall i :: 0 <= i < |m| ==> |m[i]| == |ESTADOS|
    ensures forall i, j :: 0 <= i < |ESTADOS| && 0 <= j < |ESTADOS| ==>
              m[i][j] == CountIf(rows, Transition(ESTADOS[i], ESTADOS[j]))
  {
    Reindex(GroupSizes(rows))
  }

  function RowSum(m: seq<seq<nat>>, i: nat): nat
    requires i < |m| && |m[i]| == 4
  {
    m[i][0] + m[i][1] + m[i][2] + m[i][3]
  }

  function ColumnSum(m: seq<seq<nat>>, j: nat): nat
    requires |m| == 4 && forall i :: 0 <= i < 4 ==> j < |m[i]|
  {
    m[0][j] + m[1][j] + m[2][j] + m[3][j]
  }

  /** The two off-diagonal favor/against cells of the heatmap are the two
      flip KPIs. */
  lemma MatrixFlipCells(rows: seq<Row>)
    ensures TransitionMatrix(rows)[0][1] == BasicKpis(rows).favorToContra
    ensures TransitionMatrix(rows)[1][0] == BasicKpis(rows).contraToFavor
  {
    var m := TransitionMatrix(rows);
    assert m[0][1] == CountIf(rows, Transition(ESTADOS[0], ESTADOS[1]));
    assert m[1][0] == CountIf(rows, Transition(ESTADOS[1], ESTADOS[0]));
  }

  /** The voting-to-non-voting block of the heatmap sums to `se_desactivan`. */
  lemma {:induction false} MatrixDeactivationBlock(rows: seq<Row>)
    ensures var m := TransitionMatrix(rows);
            m[0][2] + m[0][3] + m[1][2] + m[1][3] == BasicKpis(rows).deactivated
  {
    EstadosDistinct();
    CountIfFour(rows, Transition(FAVOR, AUSENTE), Transition(FAVOR, LICENCIA),
                Transition(CONTRA, AUSENTE), Transition(CONTRA, LICENCIA), Deactivating);
  }

  /** The non-voting-to-voting block of the heatmap sums to `se_activan`. */
  lemma {:induction false} MatrixActivationBlock(rows: seq<Row>)
    ensures var m := TransitionMatrix(rows);
            m[2][0] + m[2][1] + m[3][0] + m[3][1] == BasicKpis(rows).activated
  {
    EstadosDistinct();
    CountIfFour(rows, Transition(AUSENTE, FAVOR), Transition(AUSENTE, CONTRA),
                Transition(LICENCIA, FAVOR), Transition(LICENCIA, CONTRA), Activating);
  }

  /** The heatmap's diagonal counts the unchanged rows whose vote is
      recognised, so it never exceeds `total_iguales`; an unchanged
      unrecognised vote is counted by the KPI but has no cell. */
  lemma {:induction false} MatrixDiagonal(rows: seq<Row>)
    ensures var m := TransitionMatrix(rows);
            m[0][0] + m[1][1] + m[2][2] + m[3][3] == CountIf(rows, And(SameVote, VoteRecognized(First)))
    ensures var m := TransitionMatrix(rows);
            m[0][0] + m[1][1] + m[2][2] + m[3][3] <= BasicKpis(rows).sameVote
  {
    EstadosDistinct();
    CountIfFour(rows, Transition(FAVOR, FAVOR), Transition(CONTRA, CONTRA),
                Transition(AUSENTE, AUSENTE), Transition(LICENCIA, LICENCIA),
                And(SameVote, VoteRecognized(First)));
    CountIfMono(rows, And(SameVote, VoteRecognized(First)), SameVote);
  }

  /** Row `i` of the heatmap sums to the first-event count of `ESTADOS[i]`
      among rows whose second vote is recognised. */
  lemma {:induction false} MatrixRowSum(rows: seq<Row>, i: nat)
    requires i < |ESTADOS|
    ensures RowSum(TransitionMatrix(rows), i)
            == CountIf(rows, And(VoteIs(First, ESTADOS[i]), VoteRecognized(Second)))
  {
    EstadosDistinct();
    var a := ESTADOS[i];
    CountIfFour(rows, Transition(a, FAVOR), Transition(a, CONTRA), Transition(a, AUSENTE),
                Transition(a, LICENCIA), And(VoteIs(First, a), VoteRecognized(Second)));
  }

  /** Column `j` of the heatmap sums to the second-event count of
      `ESTADOS[j]` among rows whose first vote is recognised. */
  lemma {:induction false} MatrixColumnSum(rows: seq<Row>, j: nat)
    requires j < |ESTADOS|
    ensures ColumnSum(TransitionMatrix(rows), j)
            == CountIf(rows, And(VoteIs(Second, ESTADOS[j]), VoteRecognized(First)))
  {
    EstadosDistinct();
    var b := ESTADOS[j];
    CountIfFour(rows, Transition(FAVOR, b), Transition(CONTRA, b), Transition(AUSENTE, b),
                Transition(LICENCIA, b), And(VoteIs(Second, b), VoteRecognized(First)));
  }

  /** A row with both votes recognised has exactly one recognised first
      vote. */
  lemma {:induction false} BothRecognizedByFirst(rows: seq<Row>)
    ensures CountIf(rows, BothRecognized)
            == CountIf(rows, And(VoteIs(First, FAVOR), VoteRecognized(Second)))
               + CountIf(rows, And(VoteIs(First, CONTRA), VoteRecognized(Second)))
               + CountIf(rows, And(VoteIs(First, AUSENTE), VoteRecognized(Second)))
               + CountIf(rows, And(VoteIs(First, LICENCIA), VoteRecognized(Second)))
  {
    EstadosDistinct();
    forall i | 0 <= i < |rows| {
      RecognizedCases(rows[i].vote1);
    }
    CountIfFour(rows, And(VoteIs(First, FAVOR), VoteRecognized(Second)),
                And(VoteIs(First, CONTRA), VoteRecognized(Second)),
                And(VoteIs(First, AUSENTE), VoteRecognized(Second)),
                And(VoteIs(First, LICENCIA), VoteRecognized(Second)), BothRecognized);
  }

  /** The whole heatmap adds up to the rows whose two votes are both
      recognised; a row with an unrecognised vote is in no cell. */
  lemma {:induction false} MatrixTotal(rows: seq<Row>)
    ensures var m := TransitionMatrix(rows);
            RowSum(m, 0) + RowSum(m, 1) + RowSum(m, 2) + RowSum(m, 3)
            == CountIf(rows, BothRecognized)
  {
    MatrixRowSum(rows, 0);
    MatrixRowSum(rows, 1);
    MatrixRowSum(rows, 2);
    MatrixRowSum(rows, 3);
    BothRecognizedByFirst(rows);
  }

  /** When every vote of one event is recognised, requiring it changes no
      count. */
  lemma DropRecognized(rows: seq<Row>, p: Row -> bool, ev: Event)
    requires forall k :: 0 <= k < |rows| ==> Recognized(VoteOf(rows[k], ev))
    ensures CountIf(rows, And(p, VoteRecognized(ev))) == CountIf(rows, p)
  {
    CountIfSame(rows, And(p, VoteRecognized(ev)), p);
  }

  /** When every second vote is recognised, row `i` of the heatmap is the
      first-event count of `ESTADOS[i]`. */
  lemma {:induction false} MatrixRowIsStateCount(rows: seq<Row>, i: nat)
    requires i < |ESTADOS|
    requires forall k :: 0 <= k < |rows| ==> Recognized(rows[k].vote2)
    ensures RowSum(TransitionMatrix(rows), i) == CountIf(rows, VoteIs(First, ESTADOS[i]))
  {
    MatrixRowSum(rows, i);
    DropRecognized(rows, VoteIs(First, ESTADOS[i]), Second);
  }

  /** When every first vote is recognised, column `j` of the heatmap is the
      second-event count of `ESTADOS[j]`. */
  lemma {:induction false} MatrixColumnIsStateCount(rows: seq<Row>, j: nat)
    requires j < |ESTADOS|
    requires forall k :: 0 <= k < |rows| ==> Recognized(rows[k].vote1)
    ensures ColumnSum(TransitionMatrix(rows), j) == CountIf(rows, VoteIs(Second, ESTADOS[j]))
  {
    MatrixColumnSum(rows, j);
    DropRecognized(rows, VoteIs(Second, ESTADOS[j]), First);
  }

  /** When every second vote is recognised, the heatmap's row margins are
      the four first-event counts of `conteos_por_estado`. */
  lemma {:induction false} MatrixRowMargins(rows: seq<Row>)
    requires forall k :: 0 <= k < |rows| ==> Recognized(rows[k].vote2)
    ensures var m, c := TransitionMatrix(rows), CountsByState(rows).first;
            && RowSum(m, 0) == c.favor && RowSum(m, 1) == c.contra
            && RowSum(m, 2) == c.ausente && RowSum(m, 3) == c.licencia
  {
    MatrixRowIsStateCount(rows, 0);
    MatrixRowIsStateCount(rows, 1);
    MatrixRowIsStateCount(rows, 2);
    MatrixRowIsStateCount(rows, 3);
  }

  /** When every first vote is recognised, the heatmap's column margins are
      the four second-event counts of `conteos_por_estado`. */
  lemma {:induction false} MatrixColumnMargins(rows: seq<Row>)
    requires forall k :: 0 <= k < |rows| ==> Recognized(rows[k].vote1)
    ensures var m, c := TransitionMatrix(rows), CountsByState(rows).second;
            && ColumnSum(m, 0) == c.favor && ColumnSum(m, 1) == c.contra
            && ColumnSum(m, 2) == c.ausente && ColumnSum(m, 3) == c.licencia
  {
    MatrixColumnIsStateCount(rows, 0);
    MatrixColumnIsStateCount(rows, 1);
    MatrixColumnIsStateCount(rows, 2);
    MatrixColumnIsStateCount(rows, 3);
  }

  // ---------------------------------------------------------------------
  // Row filters: block selection, detail table, kept decisive votes
  // ---------------------------------------------------------------------

  /** The selectbox entry that stands for every block. */
  const ALL_BLOCKS: string := "TODOS"

  function InBlock(b: string): Row -> bool {
    (r: Row) => r.blockNorm == b
  }

  /** `merged.copy()` for "TODOS", else `merged[merged["bloque_norm"] == sel]`. */
  function FilterBlock(rows: seq<Row>, sel: string): (r: seq<Row>)
    ensures sel == ALL_BLOCKS ==> r == rows
    ensures sel != ALL_BLOCKS ==> forall x :: x in r <==> x in rows && x.blockNorm == sel
    ensures sel != ALL_BLOCKS ==> forall x ::
              multiset(r)[x] == (if x.blockNorm == sel then multiset(rows)[x] else 0)
    ensures |r| <= |rows|
  {
    if sel == ALL_BLOCKS then rows else Filter(rows, InBlock(sel))
  }

  /** The heatmap of one block counts, cell by cell, the rows of that block
      with that transition, and never exceeds the heatmap of all blocks. */
  lemma {:induction false} BlockMatrixCells(rows: seq<Row>, sel: string, i: nat, j: nat)
    requires sel != ALL_BLOCKS
    requires i < |ESTADOS| && j < |ESTADOS|
    ensures TransitionMatrix(FilterBlock(rows, sel))[i][j]
            == CountIf(rows, And(InBlock(sel), Transition(ESTADOS[i], ESTADOS[j])))
    ensures TransitionMatrix(FilterBlock(rows, sel))[i][j] <= TransitionMatrix(rows)[i][j]
  {
    var t := Transition(ESTADOS[i], ESTADOS[j]);
    CountIfFilter(rows, InBlock(sel), t);
    CountIfMono(rows, And(InBlock(sel), t), t);
  }

  /** The selectbox entry that disables the second-vote filter. */
  const ALL_VOTES: string := "Todos"

  function CategoryIn(cats: set<string>): Row -> bool {
    (r: Row) => r.category.Some? && r.category.value in cats
  }

  /** A row the detail table shows: its category is among those selected
      and, unless "Todos" is selected, its second vote is the one chosen. */
  predicate DetailShows(x: Row, cats: set<string>, vote2Sel: string) {
    && x.category.Some? && x.category.value in cats
    && (vote2Sel == ALL_VOTES || x.vote2 == vote2Sel)
  }

  /** `df_b[df_b["categoria_cambio"].isin(sel)]`, then
      `[df["voto_2"] == voto2_sel]` unless "Todos" is selected. */
  function FilterDetail(rows: seq<Row>, cats: set<string>, vote2Sel: string): (r: seq<Row>)
    ensures forall x :: x in r <==> x in rows && DetailShows(x, cats, vote2Sel)
    ensures forall x ::
              multiset(r)[x] == (if DetailShows(x, cats, vote2Sel) then multiset(rows)[x] else 0)
    ensures |r| <= |rows|
  {
    var d := Filter(rows, CategoryIn(cats));
    CountIfMono(rows, CategoryIn(cats), (_: Row) => true);
    if vote2Sel == ALL_VOTES then d else Filter(d, VoteIs(Second, vote2Sel))
  }

  /** With the multiselect's default, every category present, and "Todos",
      the detail table is the whole block table. */
  lemma FilterDetailDefault(rows: seq<Row>, cats: set<string>)
    requires forall i :: 0 <= i < |rows| ==> CategoryIn(cats)(rows[i])
    ensures FilterDetail(rows, cats, ALL_VOTES) == rows
  {
    FilterAll(rows, CategoryIn(cats));
  }

  /** With every category selected, choosing a second vote shows as many
      rows as `conteos_por_estado` counts for that label. */
  lemma FilterDetailSecondVotes(rows: seq<Row>, cats: set<string>)
    requires forall i :: 0 <= i < |rows| ==> CategoryIn(cats)(rows[i])
    ensures var c := CountsByState(rows).second;
            && |FilterDetail(rows, cats, FAVOR)| == c.favor
            && |FilterDetail(rows, cats, CONTRA)| == c.contra
            && |FilterDetail(rows, cats, AUSENTE)| == c.ausente
            && |FilterDetail(rows, cats, LICENCIA)| == c.licencia
  {
    FilterAll(rows, CategoryIn(cats));
  }

  const KeptDecisive: Row -> bool := (r: Row) => r.vote1 == r.vote2 && IsVoting(r.vote1)

  /** `merged[(voto_1 == voto_2) & voto_1.isin(["A FAVOR", "EN CONTRA"])]`. */
  function KeptDecisiveRows(rows: seq<Row>): (r: seq<Row>)
    ensures forall x :: x in r <==> x in rows && x.vote1 == x.vote2 && IsVoting(x.vote1)
    ensures forall x :: multiset(r)[x]
              == (if x.vote1 == x.vote2 && IsVoting(x.vote1) then multiset(rows)[x] else 0)
  {
    Filter(rows, KeptDecisive)
  }

  /** The kept-decisive rows are the favor→favor rows plus the
      against→against rows. */
  lemma {:induction false} KeptDecisiveSplit(rows: seq<Row>)
    ensures |KeptDecisiveRows(rows)|
            == CountIf(rows, Transition(ESTADOS[0], ESTADOS[0]))
               + CountIf(rows, Transition(ESTADOS[1], ESTADOS[1]))
  {
    EstadosDistinct();
    assert ESTADOS[0] == FAVOR && ESTADOS[1] == CONTRA;
    CountIfOr(rows, Transition(FAVOR, FAVOR), Transition(CONTRA, CONTRA));
    CountIfSame(rows, Or(Transition(FAVOR, FAVOR), Transition(CONTRA, CONTRA)), KeptDecisive);
  }

  /** The kept-decisive rows are exactly the two favor/against diagonal
      cells of the heatmap. */
  lemma {:induction false} KeptDecisiveCount(rows: seq<Row>)
    ensures |KeptDecisiveRows(rows)| == TransitionMatrix(rows)[0][0] + TransitionMatrix(rows)[1][1]
  {
    KeptDecisiveSplit(rows);
  }

  /** The kept-decisive rows are a subset of the unchanged rows. */
  lemma {:induction false} KeptDecisiveWithinSameVote(rows: seq<Row>)
    ensures |KeptDecisiveRows(rows)| <= BasicKpis(rows).sameVote
  {
    CountIfMono(rows, KeptDecisive, SameVote);
  }

  /** Under the classifier's column, every kept-decisive row is labelled
      "Se mantiene". */
  lemma KeptDecisiveUnchanged(rows: seq<Row>)
    requires Categorized(rows)
    ensures forall x :: x in KeptDecisiveRows(rows) ==> x.category == Some(Unchanged.Label())
  {}
}
