# ENEM/TRI dashboard core, modelled in Dafny

This project models the computational core of a Next.js dashboard for Item
Response Theory (TRI) analysis of ENEM results. The dashboard itself is JSX
and chart plumbing. The parts modelled here are the sequential computations
inside it:

- **Score conversion engine.** It maps a raw, possibly fractional number of
  correct answers (`acertos`) onto the MIN/MED/MAX scale of an INEP reference
  table for a year and an area. It clamps the score, interpolates between
  adjacent rows, substitutes defaults for null values, falls back from an
  unknown year to 2023, and fails on an unknown area. It also computes the
  3PL expected score `Σ c + (1-c)/(1+exp(-a(θ-b)))`, composes the two, and
  gives summary statistics of a table. The 2024 variant is an exact-match
  lookup.
- **Candidate results table.** It derives each candidate's row, filters rows
  by a case-insensitive search, splits them into 50-row pages with clamped
  page moves, and gives a three-way ability level.
- **Historical table page.** It normalises rows through `??` fallback
  chains, picks the summary cards, and computes the row-to-row variation. It
  merges several years keyed by `acertos`, and its year toggle never leaves
  the selection empty.
- **Response-matrix validator.** `validateData` reports errors and warnings
  for an uploaded 0/1 matrix and builds a bounded preview.
- **Processed ENEM data.** This part holds the year-to-year comparison of
  area means, the list of available years, and the mock 2024 dataset.
- **Item difficulty analysis.** It simulates 3PL item parameters from
  random draws and filters them by booklet colour. It lists the 10 easiest
  and 10 hardest items, counts five difficulty bands and shows two cards.
- **θ→ENEM scale.** `Math.round(media + θ·dp)`.
- **Global store.** A record of nine fields with a setter per field,
  `reset`, and a persisted projection.

Each source file becomes one module. Pure parts are functions with
contracts and lemmas. A loop that fills a collection becomes a `method` with
loop invariants, proved equal to a specification function. Examples are the
non-binary count and zero-variance scan of `validateData`, the multi-year
merge, `compararAnos` and the generation loop of the simulation. Component
state that setters update (page and search term, year selection, the
global store) becomes a `class` whose methods state the whole new state.

Modelling conventions:

- Real numbers are Dafny `real`; IEEE rounding, overflow and NaN are not
  modelled.
- Where the source produces NaN or Infinity by dividing by zero, the model
  returns `None`. This applies to `taxaAcerto` of an empty answer list, the
  table variation after a zero mean, and `variacaoPercentual` after a zero
  mean.
- `Math.exp` is a parameter `exp` that is only assumed positive. Some lemmas
  also assume `exp(0) = 1` and monotonicity.
- Reference tables are parameters, with null values as `Option<real>`.
- `Math.random()` readings are inputs in `[0, 1)`.
- The clock's reading (`new Date().toISOString()`) is a string parameter.
- The omitted arguments of `Client.ThetaParaENEM` and
  `EnemData2024.AcertosParaNota2024` are `Option` parameters, where the
  default itself is a property of the source. The defaults of the
  conversion engine are not modelled (see "Left out").

Facts shown along the way:

- **Mock CN table.** Its MAX column falls below its MED column from 38
  correct answers on (`EnemData.MockCNMaxBelowMed`). Every mock column still
  strictly increases with the number of correct answers
  (`EnemData.MockIncreasing`).
- **Hard-items card.** It counts `b > 0.5`, while the "Difícil" band counts
  `b ≥ 0.5`. An item at exactly 0.5 is therefore in the band but not on the
  card (`AnaliseTri.CardDificeisMissesBoundary`,
  `AnaliseTri.BoundaryItemExample`).
- **Missing floor row.** When the floor row is missing, the conversion reads
  `tabela[0]` through `||`. A stored 0 therefore counts as missing and
  becomes 300, and the fallback is not the nearest row
  (`EnemConversion.MissingFloorRow`).

## Model

| member | source | states |
|---|---|---|
| EnemConversion.AreasDisponiveis | frontend/src/lib/utils/enemConversion.ts:165-167 | the four areas, each listed once |
| EnemConversion.Clamp | frontend/src/lib/utils/enemConversion.ts:62 | the result lies in `[0, hi]`; a value already in range is kept; a value below 0 or above `hi` becomes 0 or `hi` |
| EnemConversion.FindRow | frontend/src/lib/utils/enemConversion.ts:68-69 | the position of the first row with the given `acertos`; no position exactly when no row has it |
| EnemConversion.AcertosParaNotaENEM | frontend/src/lib/utils/enemConversion.ts:41-85 | fails exactly when the area is missing from the effective year, with an error naming area and year; otherwise converts within that year's table |
| EnemConversion.ClampedScoresConvertAlike | frontend/src/lib/utils/enemConversion.ts:62 | a score below 0 converts as 0; a score above `n_itens` converts as `n_itens` |
| EnemConversion.ExactRowLookup | frontend/src/lib/utils/enemConversion.ts:65-77 | an integer score in range with a row yields that row's value, or the default 0/500/1000 when it is null, with no interpolation |
| EnemConversion.LerpBetween | frontend/src/lib/utils/enemConversion.ts:84 | linear interpolation with a fraction in `[0,1]` stays between its endpoints |
| EnemConversion.Interpolation | frontend/src/lib/utils/enemConversion.ts:65-84 | a fractional score with both adjacent rows present gives `v1 + (v2-v1)·frac` over the defaulted endpoints, between `v1` and `v2` |
| EnemConversion.MissingFloorRow | frontend/src/lib/utils/enemConversion.ts:71-73 | without a floor row the result is `tabela[0]`'s value, or 300 when the table is empty or that value is null or 0 |
| EnemConversion.NextRowMissing | frontend/src/lib/utils/enemConversion.ts:75-78 | a fractional score whose floor row exists but whose next row does not reads the floor row's value, or its default when null; no interpolation |
| EnemConversion.FirstRowFallback | frontend/src/lib/utils/enemConversion.ts:71-73 | the first row's value, or 300; never 0, because `||` treats 0 as missing |
| EnemConversion.ConvertInTable | frontend/src/lib/utils/enemConversion.ts:58-84 | no contract of its own; its five cases are fixed by `ClampedScoresConvertAlike`, `ExactRowLookup`, `Interpolation`, `NextRowMissing` and `MissingFloorRow` |
| EnemConversion.EffectiveYear | frontend/src/lib/utils/enemConversion.ts:47-51 | no contract of its own: the requested year when tables exist for it, otherwise 2023, tied to the source's recursion by `UnknownYearIs2023` |
| EnemConversion.UnknownYearIs2023 | frontend/src/lib/utils/enemConversion.ts:47-51 | a year absent from the data converts exactly as 2023 |
| EnemConversion.KnownYearMissingArea | frontend/src/lib/utils/enemConversion.ts:53-56 | a present year lacking the area is an error naming that area and year |
| EnemConversion.Probabilidades | frontend/src/lib/utils/enemConversion.ts:99-105 | one 3PL probability per item, defaulting `a` to 1 and `c` to 0 |
| EnemConversion.ProbabilidadeBounds | frontend/src/lib/utils/enemConversion.ts:98-104 | with `0 ≤ c < 1` each probability lies strictly between `c` and 1 |
| EnemConversion.ExpectedScoreEmpty | frontend/src/lib/utils/enemConversion.ts:108 | the expected score of no items is 0 |
| EnemConversion.ExpectedScoreBounds | frontend/src/lib/utils/enemConversion.ts:94-109 | the expected score lies in `[0, n]`, strictly inside for `n > 0` |
| EnemConversion.ThetaParaAcertosEsperados | frontend/src/lib/utils/enemConversion.ts:94-109 | no contract of its own: the sum of the item probabilities, bounded by `ExpectedScoreBounds`, 0 for no items by `ExpectedScoreEmpty`, monotone in θ by `ExpectedScoreMonotone` |
| EnemConversion.Probabilidade | frontend/src/lib/utils/enemConversion.ts:99-105 | no contract of its own: `c + (1-c)/(1+exp(-a(θ-b)))`, bounded by `ProbabilidadeBounds`, the midpoint at θ = b by `ProbabilidadeAtDifficulty`, monotone by `ProbabilidadeMonotone` |
| EnemConversion.ProbabilidadeAtDifficulty | frontend/src/lib/utils/enemConversion.ts:103-104 | at `θ = b` the probability is `c + (1-c)/2` |
| EnemConversion.ProbabilidadeMonotone | frontend/src/lib/utils/enemConversion.ts:103-104 | with `a ≥ 0` and `c ≤ 1` the probability does not decrease in θ |
| EnemConversion.ExpectedScoreMonotone | frontend/src/lib/utils/enemConversion.ts:94-109 | the expected score does not decrease in θ under the same conditions |
| EnemConversion.ThetaParaNotaENEM | frontend/src/lib/utils/enemConversion.ts:115-124 | fails exactly when the year in effect has no table for the area, with that error; otherwise the expected score, unrounded, converted in that table; with every `c` in [0, 1) the converted score lies between 0 and the number of items |
| EnemConversion.InterpolatedConversion | frontend/src/lib/utils/enemConversion.ts:41-85 | for a present year and area and a fractional score between two present rows, the conversion succeeds with the interpolated value |
| EnemConversion.ConvertedFractionalScore | frontend/src/lib/utils/enemConversion.ts:65-84 | a successful conversion of a fractional score between two present rows is the interpolated value |
| EnemConversion.ThetaParaNotaUsesUnroundedScore | frontend/src/lib/utils/enemConversion.ts:122-123 | a fractional expected score is interpolated, not rounded, before converting |
| EnemConversion.Validas | frontend/src/lib/utils/enemConversion.ts:139-141 | only values present in the column, and each present value; no more entries than rows |
| EnemConversion.ValidasOne | frontend/src/lib/utils/enemConversion.ts:139-141 | one row gives its value when present and nothing when null |
| EnemConversion.ValidasConcat | frontend/src/lib/utils/enemConversion.ts:139-141 | blocks of rows give their present values block by block, so the list is the column's present values in table order, each row once |
| EnemConversion.Minimo | frontend/src/lib/utils/enemConversion.ts:147 | `Math.min(...)`: an element no greater than any other |
| EnemConversion.Maximo | frontend/src/lib/utils/enemConversion.ts:148 | `Math.max(...)`: an element no smaller than any other |
| EnemConversion.GetTabelaInfo | frontend/src/lib/utils/enemConversion.ts:129-153 | null exactly for a missing year or area, with no 2023 fallback; otherwise year, area, item count and the table as stored |
| EnemConversion.ValidasExtremes | frontend/src/lib/utils/enemConversion.ts:139-148 | the non-null list is empty exactly when the column is all null; otherwise its minimum and maximum occur in the column and bound every non-null value |
| EnemConversion.TabelaInfoMinima | frontend/src/lib/utils/enemConversion.ts:147 | `nota_minima` is the least MIN present, and some row holds it; 300 when the column is all null |
| EnemConversion.TabelaInfoMaxima | frontend/src/lib/utils/enemConversion.ts:148 | `nota_maxima` is the greatest MAX present, and some row holds it; 1000 when the column is all null |
| EnemConversion.TabelaInfoCentre | frontend/src/lib/utils/enemConversion.ts:149-150 | the mean and median are over the non-null MED values in table order (fixed by `ValidasOne` and `ValidasConcat`), the median at index `floor(len/2)`, both 500 when none exist; the mean lies between their extremes |
| EnemConversion.MeanBetween | frontend/src/lib/utils/enemConversion.ts:149 | a mean of values in `[lo, hi]` lies in `[lo, hi]` |
| EnemConversion.SumBetween | frontend/src/lib/utils/enemConversion.ts:149 | a sum of `n` values in `[lo, hi]` lies in `[n·lo, n·hi]` |
| EnemData2024.GetTabela2024 | frontend/src/lib/api/enemData2024.ts:77-79 | the stored table of the area unchanged, none exactly when it is missing |
| EnemData2024.GetEstatisticas2024 | frontend/src/lib/api/enemData2024.ts:70-72 | the stored statistics of the area unchanged, none exactly when they are missing |
| EnemData2024.FindExact | frontend/src/lib/api/enemData2024.ts:61 | the first row whose `acertos` equals the argument exactly; none exactly when no row does |
| EnemData2024.AcertosParaNota2024 | frontend/src/lib/api/enemData2024.ts:53-65 | 0 without a table or a matching row; otherwise the matched row's column for `tipo`, MED when omitted |
| EnemData2024.DefaultTipoIsMed | frontend/src/lib/api/enemData2024.ts:56 | omitting `tipo` reads MED |
| EnemData2024.FractionalScoreIsZero | frontend/src/lib/api/enemData2024.ts:61-62 | a fractional score gives 0, with no interpolation |
| EnemData2024.UnmatchedScoreIsZero | frontend/src/lib/api/enemData2024.ts:61-62 | an integer score with no row of its own gives 0, with no clamping |
| EnemData2024.FirstMatchWins | frontend/src/lib/api/enemData2024.ts:61-64 | among duplicate rows the first one's value is returned |
| CandidateTable.ParamsOf | frontend/src/components/dashboard/CandidateTable.tsx:122-124 | each calibrated item's `a`, `b`, `c` as passed to the 3PL sum |
| CandidateTable.AcertosEsperadosAgrees | frontend/src/components/dashboard/CandidateTable.tsx:120-128 | the table's local expected-score `reduce` equals the one of the conversion engine |
| CandidateTable.AcertosEsperados | frontend/src/components/dashboard/CandidateTable.tsx:120-128 | no contract of its own: the table's left fold, equal to the engine's expected score by `AcertosEsperadosAgrees` |
| CandidateTable.TermoIsProbabilidade | frontend/src/components/dashboard/CandidateTable.tsx:122-126 | each local term is the engine's 3PL probability |
| CandidateTable.ExpectedScoreSnoc | frontend/src/lib/utils/enemConversion.ts:108 | the engine's sum peels its last item off, as a left fold does |
| CandidateTable.Acertos | frontend/src/components/dashboard/CandidateTable.tsx:48 | the count of entries equal to 1, at most the length |
| CandidateTable.AcertosConcat | frontend/src/components/dashboard/CandidateTable.tsx:48 | the count over a concatenation is the sum of the counts |
| CandidateTable.AcertosOfOne | frontend/src/components/dashboard/CandidateTable.tsx:48 | a single entry counts 1 exactly when it equals 1 |
| CandidateTable.TaxaAcerto | frontend/src/components/dashboard/CandidateTable.tsx:49 | none exactly for an empty answer list; otherwise a value in `[0,100]` with `taxa · length = acertos · 100` |
| CandidateTable.NotasPara | frontend/src/components/dashboard/CandidateTable.tsx:54-59 | fails exactly on a missing area; min, med and max are the engine's conversions of the unrounded expected score |
| CandidateTable.Row | frontend/src/components/dashboard/CandidateTable.tsx:45-73 | id is index+1, name, count, total and rate from the answers; score fields from the estimate or 0, 0, `[0,0]`; an ENEM band exactly when shown and scored, equal to `NotasPara` |
| CandidateTable.RowsUpTo | frontend/src/components/dashboard/CandidateTable.tsx:45 | on success every row is `Row` of its index; a failure comes from some row's failure |
| CandidateTable.Dados | frontend/src/components/dashboard/CandidateTable.tsx:45-73 | one row per candidate |
| CandidateTable.DadosFailsOnlyOnMissingArea | frontend/src/components/dashboard/CandidateTable.tsx:53-59 | building the rows fails exactly when the band is shown, some candidate is scored and the area is missing |
| CandidateTable.UnscoredCandidate | frontend/src/components/dashboard/CandidateTable.tsx:52-71 | a candidate without a score gets θ 0, error 0, interval `[0,0]` and no band |
| CandidateTable.Filtrar | frontend/src/components/dashboard/CandidateTable.tsx:76-79 | a row is kept exactly when its lower-cased name contains the lower-cased term or its id contains the term |
| CandidateTable.FiltrarConcat | frontend/src/components/dashboard/CandidateTable.tsx:76-79 | consecutive blocks of rows are searched block by block, so the kept rows stay in table order |
| CandidateTable.FiltrarOne | frontend/src/components/dashboard/CandidateTable.tsx:76-79 | a single row is kept exactly when it matches |
| CandidateTable.EmptySearchKeepsAll | frontend/src/components/dashboard/CandidateTable.tsx:76-79 | the empty term keeps every row in order |
| CandidateTable.ToLowerIdempotent | frontend/src/components/dashboard/CandidateTable.tsx:77 | lower-casing twice is lower-casing once |
| CandidateTable.ToLowerDigits | frontend/src/components/dashboard/CandidateTable.tsx:78 | an id string is unchanged by lower-casing |
| CandidateTable.DigitsHoldNoNonDigit | frontend/src/components/dashboard/CandidateTable.tsx:77 | the decimal id never contains a term with a non-digit in it, so such a term can only match by name |
| CandidateTable.SearchIgnoresCase | frontend/src/components/dashboard/CandidateTable.tsx:76-79 | a term and its lower-cased form match the same rows |
| CandidateTable.TotalPages | frontend/src/components/dashboard/CandidateTable.tsx:82 | `ceil(n/50)`: 0 exactly for no rows, enough pages for all rows and no empty last page |
| CandidateTable.Slice | frontend/src/components/dashboard/CandidateTable.tsx:84 | `slice` with JavaScript's clamping of out-of-range bounds |
| CandidateTable.PageSize | frontend/src/components/dashboard/CandidateTable.tsx:83-84 | every page holds at most 50 rows |
| CandidateTable.PageContents | frontend/src/components/dashboard/CandidateTable.tsx:83-84 | page `p` is the rows from `(p-1)·50`, as many as remain up to 50 |
| CandidateTable.PageOfRow | frontend/src/components/dashboard/CandidateTable.tsx:82-84 | row `i` appears on page `i/50+1` at offset `i%50`, and that page exists |
| CandidateTable.PagesUpToIsPrefix | frontend/src/components/dashboard/CandidateTable.tsx:83-84 | the first `k` pages in order are the first `50k` rows |
| CandidateTable.PagesCoverAll | frontend/src/components/dashboard/CandidateTable.tsx:82-84 | all pages in order are exactly the filtered rows, so they are disjoint and cover every row |
| CandidateTable.NivelDe | frontend/src/components/dashboard/CandidateTable.tsx:223-225 | 'Avançado' exactly when θ > 1, 'Intermediário' exactly when -0.5 < θ ≤ 1, 'Básico' otherwise |
| CandidateTable.BadgeMatchesLevel | frontend/src/components/dashboard/CandidateTable.tsx:218-225 | the badge variant and the label always agree |
| CandidateTable.CandidateTableView.constructor | frontend/src/components/dashboard/CandidateTable.tsx:41-42 | empty search term, page 1 |
| CandidateTable.CandidateTableView.SetSearchTerm | frontend/src/components/dashboard/CandidateTable.tsx:139 | the term is replaced and the page is kept |
| CandidateTable.CandidateTableView.Previous | frontend/src/components/dashboard/CandidateTable.tsx:241 | the page becomes `max(1, p-1)`; a page within `[1, totalPages]` stays within it |
| CandidateTable.CandidateTableView.Next | frontend/src/components/dashboard/CandidateTable.tsx:253 | the page becomes `min(totalPages, p+1)`; a page within `[1, totalPages]` stays within it |
| TabelaPage.TabelaDoAno | frontend/src/app/tabela/page.tsx:43-56 | an absent year, area or table gives the empty table instead of an error |
| TabelaPage.Coalesce | frontend/src/app/tabela/page.tsx:48-51 | `a ?? b ?? 0` |
| TabelaPage.Normalizar | frontend/src/app/tabela/page.tsx:46-52 | min, med and max through their fallback chains, `amplitude = max - min` |
| TabelaPage.DadosGrafico | frontend/src/app/tabela/page.tsx:46-52 | one normalised row per table row, in order |
| TabelaPage.NormalizarDefaults | frontend/src/app/tabela/page.tsx:48-51 | an all-null row normalises to 0 with amplitude 0; a present `notaMin` wins over `min` |
| TabelaPage.Variacao | frontend/src/app/tabela/page.tsx:367-369 | 0 for the first row; otherwise `(med_i - med_{i-1})/med_{i-1}·100`, none exactly when the previous med is 0 |
| TabelaPage.VariacaoSign | frontend/src/app/tabela/page.tsx:367-369 | after a positive med the variation is positive exactly when the med rises, and 0 exactly when it is equal |
| TabelaPage.MaxOf | frontend/src/app/tabela/page.tsx:177 | `Math.max(...)`: an element no smaller than any other |
| TabelaPage.Cards | frontend/src/app/tabela/page.tsx:144-178 | none for an empty table; otherwise the first row's min, the med at `floor(len/2)`, the last row's max and the greatest amplitude |
| TabelaPage.BadgeDe | frontend/src/app/tabela/page.tsx:388 | 'destructive' exactly above 100, 'secondary' exactly in (50, 100], 'outline' otherwise |
| TabelaPage.PontosDoAno | frontend/src/app/tabela/page.tsx:56-60 | one point per row of the year's table, carrying that year's med |
| TabelaPage.PorAno | frontend/src/app/tabela/page.tsx:55-61 | one point list per selected year, in selection order |
| TabelaPage.FlattenMember | frontend/src/app/tabela/page.tsx:64-65 | a point is scanned exactly when it belongs to some selected year |
| TabelaPage.Absorver | frontend/src/app/tabela/page.tsx:66-71 | the `find` loop and the `Object.assign` or `push` give one merge step |
| TabelaPage.AbsorverAno | frontend/src/app/tabela/page.tsx:65-72 | the `forEach` over one year's points continues the merge with those points |
| TabelaPage.MergeComparacao | frontend/src/app/tabela/page.tsx:64-74 | the nested `reduce`/`forEach` with in-place updates yields the merge of all points in scan order |
| TabelaPage.Dedup | frontend/src/app/tabela/page.tsx:66-70 | the first occurrences, with the same members |
| TabelaPage.DedupDistinct | frontend/src/app/tabela/page.tsx:66-70 | first occurrences hold no repeats |
| TabelaPage.AbsorbKeys | frontend/src/app/tabela/page.tsx:66-71 | a point with a known `acertos` keeps the keys; a new one appends its key |
| TabelaPage.MergeKeys | frontend/src/app/tabela/page.tsx:64-74 | the merged keys are the distinct `acertos` in order of first appearance |
| TabelaPage.MergeAll | frontend/src/app/tabela/page.tsx:64-74 | no contract of its own: the merge as a left fold of `Absorb`; its keys are fixed by `MergeKeys` and `MergeKeysDistinct`, its values by `MergeValores` and `ValoresForMeaning` |
| TabelaPage.Merged | frontend/src/app/tabela/page.tsx:64-74 | no contract of its own: the merge of the selected years' points, whose year keys `MergedYearKeys` fixes |
| TabelaPage.MergeKeysDistinct | frontend/src/app/tabela/page.tsx:64-74 | one merged row per distinct `acertos`, and every scanned `acertos` gets one |
| TabelaPage.ValoresForAbsent | frontend/src/app/tabela/page.tsx:66-71 | an `acertos` never scanned collects no year values |
| TabelaPage.MergeValores | frontend/src/app/tabela/page.tsx:66-71 | each merged row holds the year values of its `acertos` |
| TabelaPage.ValoresForMeaning | frontend/src/app/tabela/page.tsx:59-68 | year `y` is a key of row `k` exactly when some point of `y` has `acertos = k`, and it holds the last such point's med |
| TabelaPage.PontoDaTabela | frontend/src/app/tabela/page.tsx:55-61 | every scanned point comes from a selected year's table row with the same `acertos` |
| TabelaPage.TabelaNoPonto | frontend/src/app/tabela/page.tsx:55-61 | every row of a selected year's table is scanned as a point of that year |
| TabelaPage.MergedYearKeys | frontend/src/app/tabela/page.tsx:55-74 | in a merged row, year `y`'s key is present exactly when `y` is selected and its table has that row |
| TabelaPage.Toggle | frontend/src/app/tabela/page.tsx:291-298 | a selected year is removed only when others remain, the rest kept in order (`Seqs.Filter`, fixed by `FilterConcat` and `FilterOne`); an unselected year is appended; other years keep their membership |
| TabelaPage.ToggleNonEmpty | frontend/src/app/tabela/page.tsx:292-295 | a non-empty selection without repeats stays non-empty (`ToggleNoDup` keeps that) |
| TabelaPage.ToggleNoDup | frontend/src/app/tabela/page.tsx:294-297 | a selection without repeats keeps none |
| TabelaPage.FilterNoDup | frontend/src/app/tabela/page.tsx:294 | filtering keeps a list free of repeats |
| TabelaPage.TabelaView.constructor | frontend/src/app/tabela/page.tsx:36-38 | year 2024, area MT, comparison years `[2023, 2024]` |
| TabelaPage.TabelaView.SetAno | frontend/src/app/tabela/page.tsx:36 | replaces the year only |
| TabelaPage.TabelaView.SetArea | frontend/src/app/tabela/page.tsx:37 | replaces the area only |
| TabelaPage.TabelaView.ToggleAno | frontend/src/app/tabela/page.tsx:291-298 | the selection becomes its toggle; year and area are kept; the selection stays non-empty and free of repeats |
| FileUpload.NatsToStrings | frontend/src/components/upload/FileUpload.tsx:61 | the decimal string of each column number, in order |
| FileUpload.TextoErro | frontend/src/components/upload/FileUpload.tsx:26-46 | no contract of its own: the texts of the empty-file and non-binary errors, whose meaning `TextoErroInjective` states |
| FileUpload.TextoErroInjective | frontend/src/components/upload/FileUpload.tsx:26-46 | two errors with the same text are the same error, so the count of non-binary cells can be read back from its message |
| FileUpload.TextoErroInicial | frontend/src/components/upload/FileUpload.tsx:26-46 | the empty-file text starts with `O` and the non-binary text with `D` |
| FileUpload.TextoAviso | frontend/src/components/upload/FileUpload.tsx:29-62 | no contract of its own: the texts of the small-sample and zero-variance warnings, whose meaning `TextoAvisoDistinguishes` states |
| FileUpload.TextoAvisoDistinguishes | frontend/src/components/upload/FileUpload.tsx:29-62 | a small-sample warning never has the text of a zero-variance warning, and two small-sample warnings with the same text have the same number of candidates |
| FileUpload.TextoAvisoInicial | frontend/src/components/upload/FileUpload.tsx:29-62 | the small-sample text starts with `A` and the zero-variance text with `I` |
| FileUpload.Coluna | frontend/src/components/upload/FileUpload.tsx:53 | `data.map(row => row[j])`, with a missing cell as none |
| FileUpload.Headers | frontend/src/components/upload/FileUpload.tsx:75 | 'Candidato' then Q1..Q`min(nItens,10)` |
| FileUpload.PreviewRows | frontend/src/components/upload/FileUpload.tsx:76-79 | the first `min(len,5)` rows, labelled `Candidato i`, with at most 10 values each |
| FileUpload.ValidateData | frontend/src/components/upload/FileUpload.tsx:20-82 | valid exactly when there are no errors; the empty-file and non-binary errors, the small-sample and zero-variance warnings with at most 5 columns and a '...' flag, and the preview |
| FileUpload.ContarNaoBinarios | frontend/src/components/upload/FileUpload.tsx:34-42 | the nested loops count the non-binary cells of the first rows |
| FileUpload.ItensZeroVariancia | frontend/src/components/upload/FileUpload.tsx:49-58 | the loop collects the 1-based numbers of the constant columns |
| FileUpload.CountSnoc | frontend/src/components/upload/FileUpload.tsx:36-40 | extending the scanned prefix by one cell adds 1 exactly when that cell counts |
| FileUpload.SingletonIffConstant | frontend/src/components/upload/FileUpload.tsx:54-55 | a column's value set has one element exactly when the column is non-empty and constant |
| FileUpload.ColunaConstante | frontend/src/components/upload/FileUpload.tsx:53-55 | the `unicos.length === 1` test is the column's constancy |
| FileUpload.NaoBinariosZero | frontend/src/components/upload/FileUpload.tsx:38-44 | no non-binary error exactly when every checked cell is 0 or 1 |
| FileUpload.CountZero | frontend/src/components/upload/FileUpload.tsx:38 | a count is 0 exactly when no element passes |
| FileUpload.ColunasConstantesMeaning | frontend/src/components/upload/FileUpload.tsx:52-57 | column number `x` is reported exactly when `1 ≤ x ≤ nItens` and column `x-1` is constant |
| FileUpload.ColunasConstantesSorted | frontend/src/components/upload/FileUpload.tsx:52-57 | reported numbers are increasing and within `[1, nItens]` |
| FileUpload.OnlyFirstRowsChecked | frontend/src/components/upload/FileUpload.tsx:35 | rows beyond the first 100 never affect the non-binary count |
| EnemData.Stats | frontend/src/lib/api/enemData.ts:229-230 | `dados[area]?.estatisticas`: present exactly when the area and its statistics are |
| EnemData.Compare | frontend/src/lib/api/enemData.ts:233-237 | `variacaoMedia = media2 - media1`; percent none exactly when `media1 = 0`, else `p·media1 = variacaoMedia·100` |
| EnemData.Comparacoes | frontend/src/lib/api/enemData.ts:221-242 | an entry exactly for the areas both datasets have statistics for, holding `Compare` of the two statistics |
| EnemData.CompararAnos | frontend/src/lib/api/enemData.ts:225-241 | the loop over the four areas builds exactly that map |
| EnemData.CompareSelf | frontend/src/lib/api/enemData.ts:233-236 | a dataset against itself keeps its areas with change 0, and 0% where the mean is not 0 |
| EnemData.CompareSwap | frontend/src/lib/api/enemData.ts:233 | swapping the datasets keeps the areas and negates every change |
| EnemData.ComparePercentSign | frontend/src/lib/api/enemData.ts:233-236 | with a positive first mean the percentage has the sign of the change |
| EnemData.MockTabela | frontend/src/lib/api/enemData.ts:93-98 | `Array.from({length: n+1}, ...)` has `n+1` rows |
| EnemData.MockFallback | frontend/src/lib/api/enemData.ts:194-205 | data exactly for 2024, and then it is the 2024 mock (`Mock2024`) |
| EnemData.ListarAnosDisponiveis | frontend/src/lib/api/enemData.ts:212-216 | one year, exactly the year the fallback has data for |
| EnemData.MockShape | frontend/src/lib/api/enemData.ts:76-179 | every area is present with `n_itens + 1` rows (46, or 51 for LC); row `i` has `acertos = i`; row 0 is 300 in every column |
| EnemData.Mock2024 | frontend/src/lib/api/enemData.ts:68-180 | no contract of its own: the mock dataset, whose shape `MockShape`, `MockIncreasing` and `MockCNMaxBelowMed` state |
| EnemData.MockIncreasing | frontend/src/lib/api/enemData.ts:93-176 | with bases of at least 300 and positive steps, every mock column strictly increases |
| EnemData.MockCNMaxBelowMed | frontend/src/lib/api/enemData.ts:119-124 | in the CN mock the MAX value drops below MED from row 38 on |
| AnaliseTri.Cadernos | frontend/src/app/analise-tri/page.tsx:33-38 | the four booklet colours |
| AnaliseTri.Cod | frontend/src/app/analise-tri/page.tsx:55 | the code is the area, `_Q`, then digits denoting `i + 1`; three digits below item 999, so 7 characters |
| AnaliseTri.GeradosAte | frontend/src/app/analise-tri/page.tsx:50-62 | the items after `n` turns of the loop, one per turn |
| AnaliseTri.GeradosAteAt | frontend/src/app/analise-tri/page.tsx:50-62 | after `n` turns, position `i` holds the item built from the `i`-th draw |
| AnaliseTri.Gerados | frontend/src/app/analise-tri/page.tsx:46-63 | 45 generated items |
| AnaliseTri.GerarItens | frontend/src/app/analise-tri/page.tsx:50-63 | the `for` loop pushes exactly the generated items |
| AnaliseTri.Insert | frontend/src/app/analise-tri/page.tsx:65 | inserting into a sorted list keeps it sorted and adds exactly that item |
| AnaliseTri.SortBy | frontend/src/app/analise-tri/page.tsx:65 | the result is sorted by the key and a permutation of the input |
| AnaliseTri.SimularParametrosTri | frontend/src/app/analise-tri/page.tsx:42-66 | `[]` without statistics; otherwise the loop's 45 items, sorted by `b` |
| AnaliseTri.ItemBounds | frontend/src/app/analise-tri/page.tsx:52-60 | code `area_Qnnn`, position `i+1`, `a` in `[0.8,1.4)`, `c` in `[0.15,0.25)`, `b` within 0.25 of a base in `[-2,2)`, estimated percentage correct between 2 and 100 |
| AnaliseTri.Item | frontend/src/app/analise-tri/page.tsx:54-62 | no contract of its own: one turn of the loop, whose code, position, parameters and percentage correct `ItemBounds` and `Cod` state; the booklet is one of the four fixed colours by its type, and no lemma says more about it |
| AnaliseTri.SimulatedItems | frontend/src/app/analise-tri/page.tsx:46-65 | 45 items, ascending by `b`, exactly the generated ones, all within the parameter ranges |
| AnaliseTri.Filtrados | frontend/src/app/analise-tri/page.tsx:83-85 | 'todos' keeps everything; a colour keeps exactly the items of that colour |
| AnaliseTri.FiltradosInOrder | frontend/src/app/analise-tri/page.tsx:85 | the filter keeps the items' order |
| AnaliseTri.Extremos | frontend/src/app/analise-tri/page.tsx:88-89 | `min(10, n)` items of the input, sorted by the key, none of them beaten by an item left out |
| AnaliseTri.FaceisAreEasiest | frontend/src/app/analise-tri/page.tsx:88 | at most 10 items, ascending by `b`, no item left out easier than one listed |
| AnaliseTri.Faceis | frontend/src/app/analise-tri/page.tsx:88 | no contract of its own: the ten easiest, as `FaceisAreEasiest` states |
| AnaliseTri.Dificeis | frontend/src/app/analise-tri/page.tsx:89 | no contract of its own: the ten hardest, as `DificeisAreHardest` states |
| AnaliseTri.DificeisAreHardest | frontend/src/app/analise-tri/page.tsx:89 | at most 10 items, descending by `b`, no item left out harder than one listed |
| AnaliseTri.FaixasDificuldade | frontend/src/app/analise-tri/page.tsx:102-108 | five labelled counts, none above the item count |
| AnaliseTri.FaixaCount | frontend/src/app/analise-tri/page.tsx:102-108 | band `k` counts exactly the items in the `k`-th band |
| AnaliseTri.ExactlyOneBand | frontend/src/app/analise-tri/page.tsx:103-107 | every item satisfies exactly one band predicate |
| AnaliseTri.BandsPartition | frontend/src/app/analise-tri/page.tsx:102-108 | the five counts add up to the number of items |
| AnaliseTri.CardFaceisIsFirstTwoBands | frontend/src/app/analise-tri/page.tsx:174 | the easy card equals the first two bands |
| AnaliseTri.CardFaceis | frontend/src/app/analise-tri/page.tsx:174 | no contract of its own: the count of `b < -0.5`, equal to the first two bands by `CardFaceisIsFirstTwoBands` |
| AnaliseTri.CardDificeis | frontend/src/app/analise-tri/page.tsx:184 | no contract of its own: the count of `b > 0.5`, which misses the band boundary by `CardDificeisMissesBoundary` |
| AnaliseTri.CardDificeisMissesBoundary | frontend/src/app/analise-tri/page.tsx:184 | the hard card plus the items at `b = 0.5` equals the last two bands |
| AnaliseTri.BoundaryItemExample | frontend/src/app/analise-tri/page.tsx:184 | an item at `b = 0.5` is in the 'Difícil' band but not on the card |
| Client.Round | frontend/src/lib/api/client.ts:151 | `Math.round`: an integer in `(x-0.5, x+0.5]` |
| Client.RoundUnique | frontend/src/lib/api/client.ts:151 | that integer is the only one in the window |
| Client.RoundHalfUp | frontend/src/lib/api/client.ts:151 | halves round up |
| Client.RoundMonotone | frontend/src/lib/api/client.ts:151 | rounding keeps order |
| Client.ThetaParaENEM | frontend/src/lib/api/client.ts:144-152 | within 0.5 of `media + θ·dp`, with defaults 500 and 100 |
| Client.ThetaZero | frontend/src/lib/api/client.ts:151 | θ = 0 gives the rounded mean, 500 with the defaults |
| Client.DefaultScale | frontend/src/lib/api/client.ts:146-151 | with the defaults θ = 1 gives 600 and θ = -1 gives 400 |
| Client.ThetaParaENEMMonotone | frontend/src/lib/api/client.ts:151 | with `dp ≥ 0` the result does not decrease in θ |
| AppStore.Partialize | frontend/src/lib/stores/appStore.ts:73-76 | the stored record carries the preset and the model |
| AppStore.PartializeKeepsOnlyPresetAndModelo | frontend/src/lib/stores/appStore.ts:73-76 | two states store alike exactly when preset and model agree |
| AppStore.Store.constructor | frontend/src/lib/stores/appStore.ts:33-49 | the initial state: nulls, 'Rasch', 'upload', not loading |
| AppStore.Store.SetUpload | frontend/src/lib/stores/appStore.ts:51 | sets the upload and clears the error; nothing else changes |
| AppStore.Store.SetPreset | frontend/src/lib/stores/appStore.ts:53 | sets the preset and clears the error; nothing else changes |
| AppStore.Store.SetModelo | frontend/src/lib/stores/appStore.ts:55 | changes the model only |
| AppStore.Store.SetCalibracao | frontend/src/lib/stores/appStore.ts:57 | changes the calibration only |
| AppStore.Store.SetEscores | frontend/src/lib/stores/appStore.ts:59 | changes the scores only |
| AppStore.Store.SetCatSession | frontend/src/lib/stores/appStore.ts:61 | changes the CAT session only |
| AppStore.Store.SetEtapa | frontend/src/lib/stores/appStore.ts:63 | changes the step only |
| AppStore.Store.SetLoading | frontend/src/lib/stores/appStore.ts:65 | changes the loading flag only |
| AppStore.Store.SetErro | frontend/src/lib/stores/appStore.ts:67 | changes the error only |
| AppStore.Store.Reset | frontend/src/lib/stores/appStore.ts:69 | the initial state whatever the prior state, so a second reset changes nothing |
| AppStore.Store.Persist | frontend/src/lib/stores/appStore.ts:73-76 | the stored record of the current state |
| AppStore.ActionsOnPersisted | frontend/src/lib/stores/appStore.ts:51-76 | `setPreset` and `setModelo` replace their half of the stored record; `reset` stores no preset and 'Rasch'; every other action keeps the stored record of any state |
| Seqs.FindIndex | frontend/src/lib/utils/enemConversion.ts:68 | `find` as a position: the first match, none exactly when nothing matches |
| Seqs.Filter | frontend/src/components/dashboard/CandidateTable.tsx:76 | `filter`: only passing elements, and every passing element |
| Seqs.FilterConcat | frontend/src/app/analise-tri/page.tsx:85 | filtering distributes over concatenation |
| Seqs.FilterOne | frontend/src/components/dashboard/CandidateTable.tsx:76 | a single element is kept exactly when it passes; with `FilterConcat` this fixes the order of the result |
| Seqs.SumStrictBounds | frontend/src/lib/utils/enemConversion.ts:108 | a sum of `n` terms in `(lo, hi)` lies in `[n·lo, n·hi]`, strictly when `n > 0` |
| Seqs.SumMonotone | frontend/src/lib/utils/enemConversion.ts:108 | term-wise domination carries over to the sums |
| Strings.DigitChar | frontend/src/app/analise-tri/page.tsx:55 | the digit character standing for `d` |
| Strings.NatToString | frontend/src/app/analise-tri/page.tsx:55 | `String(n)`: digits only, denoting `n`, with a leading `0` only in `"0"` itself |
| Strings.ZerosValue | frontend/src/app/analise-tri/page.tsx:55 | a run of zeros denotes 0 |
| Strings.LeadingZerosValue | frontend/src/app/analise-tri/page.tsx:55 | leading zeros keep a digit string's value |
| Strings.PadStartZerosValue | frontend/src/app/analise-tri/page.tsx:55 | `padStart(.., '0')` keeps a digit string's value |
| Strings.PadStart | frontend/src/app/analise-tri/page.tsx:55 | `padStart`: the string at the end, padded on the left to the width |
| Strings.ToLower | frontend/src/components/dashboard/CandidateTable.tsx:77 | `toLowerCase`, character by character |
| Strings.Join | frontend/src/components/upload/FileUpload.tsx:61 | `join(sep)`: empty for no parts, the part itself for one part |
| Strings.JoinSnoc | frontend/src/components/upload/FileUpload.tsx:61 | appending a part to a non-empty list appends the separator and then the part |
| Strings.Contains | frontend/src/components/dashboard/CandidateTable.tsx:77-78 | `includes`: true exactly when the substring occurs somewhere |

## Left out

- Rendering: JSX, charts, layout components and configuration are presentation only.
- Network and file I/O: the HTTP endpoints of the API client, the `fetch` in `carregarDadosENEM`, file parsing and drag-and-drop in the upload component, and CSV export through `Blob` and the DOM. `carregarDadosENEM` is modelled only by its fallback branch (`EnemData.MockFallback`).
- Component plumbing: the selectors of the store and the `persist`/`devtools` middleware mechanics are left out. Only `partialize` is modelled.
- Logging: `console.warn`, `console.log` and `console.error` are left out.
- Floating point: IEEE rounding, overflow and NaN are not modelled. A division by zero that would give NaN or Infinity is modelled as `None` instead.
- AnaliseTri.Item: `acertos` is the floor of an exact real. In IEEE-754 doubles `Math.floor((1 - 36/45) * 100)` is 19, because the product is just below 20; the model gives 20 for the item at position 37.
- Formatting: `toFixed`, `toLocaleString` and the number-to-string of preview cells are left out. Preview cells stay numbers.
- `Math.exp`: an abstract positive function, with `exp(0) = 1` and monotonicity assumed only where a lemma says so. The source has no overflow clamp and no check that `a > 0` or `0 ≤ c < 1`, and the model adds none.
- `Math.random`: the draws are inputs in `[0, 1)`, `Sorteio` values, one per item.
- `getAnosDisponiveis`: it sorts object keys as strings and is not modelled.
- The reference JSON files are not part of this model: tables and the 2024 data are parameters.
- Other pages (dashboard, comparison, analysis, upload, 2024 table) and the reference-table component are UI over data already modelled.
- `mediaAcertos` in `validateData` is computed but never returned, so it is not modelled.
- The "Total de Itens" card of the item analysis shows a constant 45 for every area and is not modelled.
- `escolas` and `por_uf` of the processed data are not read by any modelled operation and are left out of `EnemData.YearData`.
- The candidate table's `respostas[idx]` and `candidatos.map`: the model requires an answer list for every candidate (`CandidateTable.Derivable`). The source would throw on a missing one.
- EnemConversion.AcertosParaNotaENEM and EnemConversion.ThetaParaNotaENEM: the defaults of `ano`, `area` and `tipo` (2023, 'CH', 'med') are not modelled. Every caller in the model passes all three, so they are plain parameters.
- The default props of the candidate table (area 'CH', year 2023, band shown) are ordinary arguments.
- The `taxaAcerto` colour thresholds in the candidate table are presentation and are left out.
- Year keys are integers. The source indexes its tables by `ano.toString()`, and the tabela page keeps years as strings.
- Strings.ToLower: lower-cases ASCII letters only, because Unicode case mapping is not modelled. A name such as "ÁLVARO" is therefore not lower-cased, so the search term "álvaro" finds that candidate in the dashboard but not in the model.
- EnemConversion.AcertosParaNotaENEM: requires year 2023 to be present when the requested year is not. Otherwise the source's fallback recursion never ends.
- AnaliseTri.SortBy: `Array.prototype.sort` is modelled as a pure insertion sort on sequences, not in place. It keeps equal keys in order, as the engine's stable sort does, but stability is not stated as a property.
- AnaliseTri.SimularParametrosTri: the in-place `sort` becomes an assignment of the sorted sequence, so aliasing of the array is not modelled.
- AppStore.Store.Reset: idempotence follows from its contract, which names the initial state whatever the prior state. There is no separate member for it.
