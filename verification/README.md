# Vote-transition dashboard core, in Dafny

The dashboard compares how each legislator voted in two events (`voto_1`,
`voto_2`). It shows per-state totals, five "behaviour" KPIs, a 4×4 transition
heatmap per block, a filterable detail table, and a chart of legislators who
kept the same decisive vote. Before anything is drawn, each section runs a
small pipeline of pure functions over the loaded sheet (app.py:259-268; the
second section repeats it verbatim at app.py:602-611). This project models
that pipeline and the reductions built on it, and proves how they relate.

Modules, leaves first:

- `Text` (`text.dfy`): the Python string operations the normalizers use.
  These are `str.isspace()` whitespace, `upper()`, `replace()`, `strip()`,
  `split()` and `" ".join`. It also holds the split/join/strip lemmas.
- `Normalize` (`normalize.dfy`): `ESTADOS`, `normalizar_estado` and
  `normalizar_bloque`.
- `Change` (`change.dfy`): `clasificar_cambio` and its six labels.
- `Tables` (`tables.dfy`): rows and tables, `agregar_categoria_cambio`, the
  load pipeline, and the two generic reductions. `CountIf` is a boolean mask
  followed by `.sum()`. `Filter` is `df[mask]`.
- `Aggregates` (`aggregates.dfy`): `conteos_por_estado`,
  `calcular_kpis_basicos`, the heatmap with its block filter, the
  detail-table filter and the "kept the same decisive vote" filter.
- `Outcome` (`outcome.dfy`): `resultado_global`.
- `Scenarios` (`scenarios.dfy`): concrete inputs pushed through the model.

Vote values stay strings, exactly as in the source. A label outside `ESTADOS`
comes out of normalization stripped, upper-cased and with `Á` replaced by `A`,
and is otherwise unchanged. It then takes part in classification,
but it is counted in none of the four per-state buckets and has no heatmap
cell. The lemmas state each of these consequences.

## Model

| member | source | states |
|---|---|---|
| `Normalize.NormalizeState` | app.py:118-124 | The result always equals the stripped, upper-cased input with `Á` replaced by `A`. It is a recognised label exactly when that cleaned input is one. |
| `Normalize.FirstMatch` | app.py:121-124 | The `for e in ESTADOS` loop returns its input unchanged, whatever the list. |
| `Normalize.CleanStateIsClean` | app.py:119-120 | The cleaned vote has no surrounding whitespace, is upper-case and contains no `Á`. |
| `Normalize.NormalizeStateIdempotent` | app.py:118-124 | Normalizing a vote twice gives the same result as once, for every input, recognised or not. |
| `Normalize.EstadosAreFixed` | app.py:112-124 | Each of the four labels in `ESTADOS` normalizes to itself. |
| `Text.Upper` | app.py:119 | `upper()` keeps the length and maps each character on its own, the same character always to the same result. It leaves no lower-case letter of a-z or Latin-1 and keeps whitespace exactly where it was. |
| `Text.Split` | app.py:128 | Every piece `split()` returns is a word: non-empty and free of whitespace. Where the words break is fixed by `SplitAtSpace`, `SplitAllSpaces` and `SplitSingleWord`: they are the maximal whitespace-free runs. |
| `Text.SplitSingleWord` | app.py:128 | A non-empty string with no whitespace splits into exactly itself. |
| `Text.SplitAtSpace` | app.py:128 | `split()` breaks at every whitespace character: the text before one and the text after it are split separately and their words never run together. |
| `Text.SplitAllSpaces` | app.py:128 | A string made only of whitespace, or empty, splits into no words. |
| `Text.SplitKeepsText` | app.py:128 | The words of `split()`, run together, are exactly the input's non-space characters, in order. |
| `Text.Join` | app.py:128 | The joined string is as long as all the words together plus one space between each pair of neighbours. Its text is fixed by `JoinUnique`: the only canonical string that splits back into the words. |
| `Text.ReplaceChar` | app.py:120 | `replace("Á", "A")` keeps the length. Every `from` becomes `to` and every other character is kept, so when `from != to` no `from` is left. |
| `Text.Strip` | app.py:119 | `strip()` returns the slice left after removing whitespace at both ends. The result is trimmed, and an already trimmed string is returned unchanged. |
| `Text.SplitJoin` | app.py:128 | `split()` recovers exactly the words that `" ".join` put together. |
| `Text.JoinCanonical` | app.py:128 | Joining words with single spaces gives a trimmed string. Its only whitespace is single plain spaces. |
| `Text.JoinUnique` | app.py:128 | `" ".join(ws)` is the only canonical string whose `split()` is `ws`, so with `SplitJoin` and `JoinCanonical` the joined text is fixed. |
| `Text.JoinSplitCanonical` | app.py:128 | `" ".join(s.split())` leaves an already canonical string unchanged. |
| `Normalize.NormalizeBlock` | app.py:126-130 | The block name comes out canonical: no leading or trailing whitespace, no tab or newline, no two spaces in a row. It is upper-case, and its words are the input's words upper-cased, in order. |
| `Normalize.NormalizeBlockIdempotent` | app.py:126-130 | Normalizing a block name twice gives the same result as once. |
| `Normalize.NormalizeBlockFixedPoints` | app.py:126-130 | A name is left unchanged if and only if it is already canonical and upper-case. |
| `Change.ClassifyChange` | app.py:135-148 | Each of the six labels has its own order-free condition. The labels are exclusive and exhaustive. An unequal pair with an unrecognised side gets "Otro cambio". |
| `Change.SameVoteUnchanged` | app.py:138-139 | Equal votes give "Se mantiene", whether or not the value is recognised. |
| `Change.FlipIsSymmetric` | app.py:140-141 | Favor→against and against→favor both give "Cambia opinión Favor/Contra". |
| `Change.UnrecognizedIsOther` | app.py:138-148 | An unequal pair with an unrecognised side is "Otro cambio", so no activation or deactivation rule fires for it. |
| `Change.ClassifySwap` | app.py:138-148 | Reading a pair backwards swaps "Se activa" and "Se desactiva" and keeps every other label. |
| `Change.LabelInjective` | app.py:139-148 | The six label texts are pairwise distinct. |
| `Tables.AddChangeCategory` | app.py:132-150 | A table that already has `categoria_cambio` is returned as it is. Otherwise the row count and every other cell stay the same, and each row gets the classifier's label for its own votes. |
| `Tables.AddChangeCategoryIdempotent` | app.py:132-134 | Adding the column a second time changes nothing. |
| `Tables.PrepareTable` | app.py:259-262 | After loading, both votes are cleaned and `bloque_norm` is the canonical form of `bloque_1`. Names and raw blocks are kept. The category column is computed only when the sheet lacks it. |
| `Tables.PrepareTableIdempotent` | app.py:259-262 | Running the load pipeline on its own output changes nothing. |
| `Tables.Filter` | app.py:551-554 | `df[mask]` keeps the matching rows in their order, each as many times as it occurs, and drops every other row. Its length is the mask's `.sum()`. |
| `Tables.FilterAppend` | app.py:551-554 | Filtering a table in two parts gives the rows kept from the first part followed by those kept from the second, so `df[mask]` keeps the table's order. |
| `Tables.FilterAll` | app.py:440-443 | A mask that every row satisfies keeps the whole table. |
| `Tables.CountIf` | app.py:167-175 | A mask's `.sum()` is at most the row count. It equals the row count exactly when every row matches, and is zero exactly when none does. |
| `Aggregates.CountStates` | app.py:167-175 | The four exact-match counts of one event add up to the number of recognised votes. That total equals the row count exactly when every vote is recognised. |
| `Aggregates.CountsByState` | app.py:166-178 | Neither event's four counts exceed the row count. |
| `Aggregates.BasicKpis` | app.py:152-164 | The five KPI masks are disjoint, so the five counts together never exceed the row count. |
| `Aggregates.KpisAgreeWithClassifier` | app.py:138-164 | When the classifier filled the column, `total_iguales` is the number of "Se mantiene" rows. Likewise `favor_a_contra + contra_a_favor` matches "Cambia opinión", `se_desactivan` matches "Se desactiva" and `se_activan` matches "Se activa". |
| `Aggregates.CategoriesPartitionRows` | app.py:135-149 | With the classifier's column, the six category counts add up to the row count. |
| `Aggregates.GroupSizes` | app.py:446-449 | `groupby(["voto_1", "voto_2"]).size()` has a key for a vote pair exactly when some row shows that pair, unrecognised pairs included. Its value is the number of such rows. |
| `Aggregates.TransitionMatrix` | app.py:446-452 | After `reindex`, the heatmap is 4×4, indexed by `ESTADOS` on both axes. Cell `[i][j]` counts the rows that went from `ESTADOS[i]` to `ESTADOS[j]`, and is 0 when no row did. Group sizes of unrecognised pairs get no cell. |
| `Aggregates.MatrixFlipCells` | app.py:446-452 | The favor→against and against→favor cells equal the two flip KPIs. |
| `Aggregates.MatrixDeactivationBlock` | app.py:446-452 | The four voting→non-voting cells add up to `se_desactivan`. |
| `Aggregates.MatrixActivationBlock` | app.py:446-452 | The four non-voting→voting cells add up to `se_activan`. |
| `Aggregates.MatrixDiagonal` | app.py:446-452 | The diagonal counts unchanged rows with a recognised vote, so it is at most `total_iguales`. |
| `Aggregates.MatrixRowSum` | app.py:446-452 | Row `i` counts the rows voting `ESTADOS[i]` first and a recognised label second. |
| `Aggregates.MatrixColumnSum` | app.py:446-452 | Column `j` counts the rows voting `ESTADOS[j]` second and a recognised label first. |
| `Aggregates.MatrixTotal` | app.py:446-452 | All cells add up to the rows whose two votes are both recognised. |
| `Aggregates.MatrixRowIsStateCount` | app.py:446-452 | If every second vote is recognised, row `i` is the first-event count of `ESTADOS[i]`. |
| `Aggregates.MatrixColumnIsStateCount` | app.py:446-452 | If every first vote is recognised, column `j` is the second-event count of `ESTADOS[j]`. |
| `Aggregates.MatrixRowMargins` | app.py:446-452 | If every second vote is recognised, the row sums are the four first-event counts of `conteos_por_estado`. |
| `Aggregates.MatrixColumnMargins` | app.py:446-452 | If every first vote is recognised, the column sums are the four second-event counts of `conteos_por_estado`. |
| `Aggregates.FilterBlock` | app.py:440-443 | "TODOS" keeps the table as it is. Any other choice keeps exactly the rows whose `bloque_norm` equals it, each as many times as it occurs. |
| `Aggregates.BlockMatrixCells` | app.py:440-452 | Each cell of one block's heatmap counts the rows of that block with that transition. It never exceeds the same cell of the full heatmap. |
| `Aggregates.FilterDetail` | app.py:487-491 | The detail table keeps exactly the rows whose category is among those selected. Unless "Todos" is chosen, their second vote must also equal the one selected. Each kept row appears as many times as in the block table. |
| `Aggregates.FilterDetailDefault` | app.py:472-491 | With every present category selected, the multiselect's default, and "Todos", the detail table is the whole block table. |
| `Aggregates.FilterDetailSecondVotes` | app.py:479-491 | With every category selected, choosing one of the four labels shows as many rows as `conteos_por_estado` counts for it in the second event. |
| `Aggregates.KeptDecisiveRows` | app.py:551-554 | It keeps exactly the rows with equal votes that are "A FAVOR" or "EN CONTRA", each as many times as it occurs. |
| `Aggregates.KeptDecisiveSplit` | app.py:551-554 | The number of those rows is the number of favor→favor rows plus the number of against→against rows. |
| `Aggregates.KeptDecisiveCount` | app.py:551-554 | Those rows are exactly the favor→favor and against→against heatmap cells. |
| `Aggregates.KeptDecisiveWithinSameVote` | app.py:551-554 | Those rows are never more than `total_iguales`. |
| `Aggregates.KeptDecisiveUnchanged` | app.py:551-554 | With the classifier's column, every such row is labelled "Se mantiene". |
| `Outcome.Resolve` | app.py:180-186 | The verdict is approved exactly when favor > against and rejected exactly when against > favor. Otherwise it is a tie; exactly one applies. |
| `Outcome.GlobalResult` | app.py:180-186 | The banner text is "APROBADO", "NO APROBADO" or "EMPATE" under those same conditions. Each text comes with its own background and foreground colours. |
| `Outcome.ResolveSwap` | app.py:180-186 | Exchanging the two counts exchanges approval and rejection and keeps a tie. |
| `Scenarios.StateExample` | app.py:118-124 | `" á favor\n"` normalizes to "A FAVOR". |
| `Scenarios.BlockExample` | app.py:126-130 | `"  Bloque   Unidad\n"` normalizes to "BLOQUE UNIDAD". |
| `Scenarios.ScenarioCategories` | app.py:135-149 | (favor, against), (absent, favor) and (leave, leave) get the flip, activation and unchanged labels. |
| `Scenarios.ScenarioFirstCounts` | app.py:166-170 | The first-event counts of that table are 1, 0, 1, 1. |
| `Scenarios.ScenarioSecondCounts` | app.py:172-175 | The second-event counts of that table are 1, 1, 0, 1. |
| `Scenarios.ScenarioKpis` | app.py:152-164 | The KPIs of that table are 1, 1, 0, 0, 1. |
| `Scenarios.ScenarioVerdict` | app.py:180-186 | One favor against one against in the second event is a tie. |

## Left out

- Page layout, CSS, sidebar and widgets, metric cards and `st.dataframe`
  (app.py:11-109, 214-248 and the rendering from 270 on) are presentation.
  The values the widgets select are parameters of the filters.
- Plotly figures (e.g. app.py:456-464, 526-543) are chart rendering in an
  external library.
- `pd.read_excel` and the header stripping (app.py:256-257, 599-600) are file
  I/O. The model starts from an already loaded table.
- `save_uploaded_file` (app.py:189-196) is tempfile plumbing.
  `run_markov_pipeline` (app.py:199-210) is a stub returning a constant file
  name.
- The second dashboard section (app.py:597-962) calls the same functions on
  another sheet, so it is modelled once.
- The bar-chart tallies `groupby(["bloque_norm", "categoria_cambio"]).size()`
  and `groupby(["bloque_norm", "voto_2"]).size()` (app.py:515-524, 559-568)
  feed charts only. Each of their cells is a `CountIf` over a conjunction of
  masks; the model does not build them. pandas' default `dropna=True` drops
  from the first tally a row whose `categoria_cambio` is empty, which can
  happen only when the sheet already had that column.
- The block selectbox options (app.py:434-435) and the sort and rename of the
  detail table (app.py:493-503) are display ordering only.
- `str(s)` coercion of non-text cells, such as a missing value becoming
  `"nan"`, is not modelled. Every cell is taken to be a string already.
- Text.UpperChar: Python `upper()` is modelled for a-z and the Latin-1
  lower-case letters U+00E0..U+00FE (except U+00F7). Every other character
  is left unchanged. This leaves out mappings that change length, such as
  `ß` → `SS`, the mappings of `µ` and `ÿ` out of Latin-1, and letters of other scripts.
- Counts are unbounded naturals. pandas sums them as 64-bit integers, which
  cannot overflow for a table that fits in memory.

Two facts about the code shape these contracts. `normalizar_bloque` applies
`str()` first, so a missing `bloque_1` cell becomes the block `"NAN"` and never
drops a row from a block-keyed tally. `normalizar_estado` is
idempotent on every input, not only on the four labels, and
`NormalizeStateIdempotent` proves it in that generality.
