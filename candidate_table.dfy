// The candidate results table: one row per candidate combining the raw
// answers, the ability estimate and the ENEM band, then a case-insensitive
// search, 50-row pagination with bounded page moves, and the level badge.

module CandidateTable {
  import opened Wrappers
  import opened Types
  import opened Strings
  import opened EnemConversion
  import Seqs

  const ItemsPerPage: nat := 50

  // ---------------------------------------------------------------------
  // The local expected-score helper

  /** One term of the component's own `reduce`: `c + (1 - c) / (1 + e^x)`
      with `x = -a(θ - b)`, `a` defaulting to 1 and `c` to 0. */
  function Termo(exp: real -> real, theta: real, item: CalibratedItem): real
    requires ExpPositive(exp)
  {
    var a := item.a.GetOr(1.0);
    var c := item.c.GetOr(0.0);
    var exponent := Expoente(a, theta, item.b);
    c + (1.0 - c) / (1.0 + exp(exponent))
  }

  /** The component's `thetaParaAcertosEsperados`: a left fold from 0. */
  function AcertosEsperados(exp: real -> real, theta: real, itens: seq<CalibratedItem>): real
    requires ExpPositive(exp)
  {
    if itens == [] then 0.0
    else AcertosEsperados(exp, theta, itens[..|itens| - 1]) + Termo(exp, theta, itens[|itens| - 1])
  }

  /** The calibrated items seen as plain item parameters. */
  function ParamsOf(itens: seq<CalibratedItem>): (ps: seq<ItemParameters>)
    ensures |ps| == |itens|
    ensures forall i :: 0 <= i < |itens| ==> ps[i] == itens[i].Params()
  {
    seq(|itens|, i requires 0 <= i < |itens| => itens[i].Params())
  }

  /** The component's copy of the expected score agrees with the shared
      conversion module's on every item list. */
  lemma {:induction false} AcertosEsperadosAgrees(exp: real -> real, theta: real, itens: seq<CalibratedItem>)
    requires ExpPositive(exp)
    ensures AcertosEsperados(exp, theta, itens) == ThetaParaAcertosEsperados(exp, theta, ParamsOf(itens))
  {
    if itens != [] {
      var n := |itens|;
      var init := itens[..n - 1];
      AcertosEsperadosAgrees(exp, theta, init);
      var ps := ParamsOf(itens);
      assert ParamsOf(init) == ps[..n - 1];
      ExpectedScoreSnoc(exp, theta, ps);
      TermoIsProbabilidade(exp, theta, itens[n - 1]);
    }
  }

  lemma TermoIsProbabilidade(exp: real -> real, theta: real, item: CalibratedItem)
    requires ExpPositive(exp)
    ensures Termo(exp, theta, item) == Probabilidade(exp, theta, item.Params())
  {
  }

  /** The shared expected score, split at its last item. */
  lemma ExpectedScoreSnoc(exp: real -> real, theta: real, ps: seq<ItemParameters>)
    requires ExpPositive(exp)
    requires |ps| > 0
    ensures ThetaParaAcertosEsperados(exp, theta, ps)
         == ThetaParaAcertosEsperados(exp, theta, ps[..|ps| - 1]) + Probabilidade(exp, theta, ps[|ps| - 1])
  {
    var all := Probabilidades(exp, theta, ps);
    assert Probabilidades(exp, theta, ps[..|ps| - 1]) == all[..|all| - 1];
  }

  // ---------------------------------------------------------------------
  // Row derivation

  datatype NotasENEM = NotasENEM(min: real, med: real, max: real)

  /** One derived row. `taxaAcerto` is `None` where the source divides by an
      empty answer list and gets `NaN`. */
  datatype CandidateRow = CandidateRow(
    id: nat,
    nome: string,
    acertos: nat,
    total: nat,
    taxaAcerto: Option<real>,
    theta: real,
    erroPadrao: real,
    ic95: (real, real),
    notaENEM: Option<NotasENEM>)

  /** The component's properties; the optional ones are given explicitly. */
  datatype Props = Props(
    candidatos: seq<string>,
    respostas: seq<seq<real>>,
    escores: seq<ScoringResult>,
    itens: seq<CalibratedItem>,
    area: Area,
    anoENEM: int,
    mostrarENEM: bool)

  /** `resposta.filter(r => r === 1).length`. */
  function Acertos(resposta: seq<real>): (n: nat)
    ensures n <= |resposta|
  {
    Seqs.Count(resposta, (x: real) => x == 1.0)
  }

  /** `acertos / resposta.length * 100`, undefined for no answers. */
  function TaxaAcerto(resposta: seq<real>): (r: Option<real>)
    ensures r.None? <==> |resposta| == 0
    ensures r.Some? ==> 0.0 <= r.value <= 100.0
    ensures r.Some? ==> r.value * |resposta| as real == Acertos(resposta) as real * 100.0
  {
    if |resposta| == 0 then None
    else
      var n := |resposta| as real;
      var a := Acertos(resposta) as real;
      var q := a / n;
      RatioBounds(a, n);
      assert (q * 100.0) * n == (q * n) * 100.0;
      Some(q * 100.0)
  }

  /** A part over a positive whole is a fraction in [0, 1] that scales back
      to the part. */
  lemma RatioBounds(a: real, n: real)
    requires n > 0.0 && 0.0 <= a <= n
    ensures (a / n) * n == a
    ensures 0.0 <= a / n <= 1.0
  {
  }

  /** The answers counted as correct in two parts add up. Together with
      `AcertosOfOne` this says that `Acertos` counts the entries equal to 1. */
  lemma AcertosConcat(a: seq<real>, b: seq<real>)
    ensures Acertos(a + b) == Acertos(a) + Acertos(b)
  {
    Seqs.CountConcat(a, b, (x: real) => x == 1.0);
  }

  lemma AcertosOfOne(x: real)
    ensures Acertos([x]) == if x == 1.0 then 1 else 0
  {
  }

  /** The three ENEM scores of one candidate, each converted from the same
      unrounded expected score; a missing area throws, as in the source. */
  function NotasPara(tables: EnemTables, exp: real -> real, theta: real, itens: seq<CalibratedItem>,
                     ano: int, area: Area): (r: Result<NotasENEM, ConversionError>)
    requires ExpPositive(exp)
    requires ano in tables || 2023 in tables
    ensures r.Failure? <==> area !in tables[EffectiveYear(tables, ano)].areas
    ensures r.Failure? ==> r.error == AreaNotFound(area, EffectiveYear(tables, ano))
    ensures r.Success? ==>
      && r.value.min == ThetaParaNotaENEM(tables, exp, theta, ParamsOf(itens), ano, area, Min).value
      && r.value.med == ThetaParaNotaENEM(tables, exp, theta, ParamsOf(itens), ano, area, Med).value
      && r.value.max == ThetaParaNotaENEM(tables, exp, theta, ParamsOf(itens), ano, area, Max).value
  {
    var acertosExp := AcertosEsperados(exp, theta, itens);
    AcertosEsperadosAgrees(exp, theta, itens);
    var mn := AcertosParaNotaENEM(tables, acertosExp, ano, area, Min);
    var md := AcertosParaNotaENEM(tables, acertosExp, ano, area, Med);
    var mx := AcertosParaNotaENEM(tables, acertosExp, ano, area, Max);
    if mn.Failure? then Failure(mn.error)
    else Success(NotasENEM(mn.value, md.value, mx.value))
  }

  /** What the source needs to derive row `idx` without crashing: an answer
      list for the candidate and, when a conversion happens, a year that
      resolves. */
  predicate RowDefined(props: Props, tables: EnemTables, idx: nat) {
    && idx < |props.candidatos|
    && idx < |props.respostas|
    && (props.mostrarENEM && idx < |props.escores| ==> props.anoENEM in tables || 2023 in tables)
  }

  /** The row for candidate `idx`: the body of the `candidatos.map`. */
  function Row(props: Props, tables: EnemTables, exp: real -> real, idx: nat): (r: Result<CandidateRow, ConversionError>)
    requires ExpPositive(exp)
    requires RowDefined(props, tables, idx)
    ensures r.Failure? <==>
      props.mostrarENEM && idx < |props.escores| && AreaMissing(props, tables)
    ensures r.Success? ==>
      && r.value.id == idx + 1
      && r.value.nome == props.candidatos[idx]
      && r.value.acertos == Acertos(props.respostas[idx])
      && r.value.total == |props.respostas[idx]|
      && r.value.taxaAcerto == TaxaAcerto(props.respostas[idx])
    ensures r.Success? && idx < |props.escores| ==>
      && r.value.theta == props.escores[idx].theta
      && r.value.erroPadrao == props.escores[idx].erroPadrao
      && r.value.ic95 == props.escores[idx].ic95
    ensures r.Success? && idx >= |props.escores| ==>
      r.value.theta == 0.0 && r.value.erroPadrao == 0.0 && r.value.ic95 == (0.0, 0.0)
    ensures r.Success? ==> (r.value.notaENEM.Some? <==> props.mostrarENEM && idx < |props.escores|)
    ensures r.Success? && r.value.notaENEM.Some? ==>
      r.value.notaENEM.value
        == NotasPara(tables, exp, props.escores[idx].theta, props.itens, props.anoENEM, props.area).value
  {
    var resposta := props.respostas[idx];
    var notas: Result<Option<NotasENEM>, ConversionError> :=
      if props.mostrarENEM && idx < |props.escores| then
        match NotasPara(tables, exp, props.escores[idx].theta, props.itens, props.anoENEM, props.area)
        case Failure(e) => Failure(e)
        case Success(n) => Success(Some(n))
      else Success(None);
    if notas.Failure? then Failure(notas.error)
    else
      var temEscore := idx < |props.escores|;
      Success(CandidateRow(
        idx + 1,
        props.candidatos[idx],
        Acertos(resposta),
        |resposta|,
        TaxaAcerto(resposta),
        if temEscore then props.escores[idx].theta else 0.0,
        if temEscore then props.escores[idx].erroPadrao else 0.0,
        if temEscore then props.escores[idx].ic95 else (0.0, 0.0),
        notas.value))
  }

  /** The conversion table for the component's area is missing from the
      year the conversion reads. */
  predicate AreaMissing(props: Props, tables: EnemTables)
    requires props.anoENEM in tables || 2023 in tables
  {
    props.area !in tables[EffectiveYear(tables, props.anoENEM)].areas
  }

  /** What the whole derivation needs. */
  predicate Derivable(props: Props, tables: EnemTables) {
    && |props.respostas| >= |props.candidatos|
    && (props.mostrarENEM && 0 < |props.escores| && 0 < |props.candidatos| ==>
          props.anoENEM in tables || 2023 in tables)
  }

  /** The first `n` rows; the first failing row aborts, as a throw inside
      `map` does. */
  function RowsUpTo(props: Props, tables: EnemTables, exp: real -> real, n: nat): (r: Result<seq<CandidateRow>, ConversionError>)
    requires ExpPositive(exp)
    requires Derivable(props, tables)
    requires n <= |props.candidatos|
    ensures r.Success? ==> |r.value| == n
    ensures r.Success? ==> forall i :: 0 <= i < n ==>
      RowDefined(props, tables, i) && Row(props, tables, exp, i) == Success(r.value[i])
    ensures r.Failure? ==> exists i :: 0 <= i < n && RowDefined(props, tables, i) && Row(props, tables, exp, i).Failure?
  {
    if n == 0 then Success([])
    else
      assert RowDefined(props, tables, n - 1);
      var prefix := RowsUpTo(props, tables, exp, n - 1);
      if prefix.Failure? then Failure(prefix.error)
      else
        var row := Row(props, tables, exp, n - 1);
        if row.Failure? then Failure(row.error)
        else Success(prefix.value + [row.value])
  }

  /** `dados`: every candidate's row, in candidate order. */
  function Dados(props: Props, tables: EnemTables, exp: real -> real): (r: Result<seq<CandidateRow>, ConversionError>)
    requires ExpPositive(exp)
    requires Derivable(props, tables)
    ensures r.Success? ==> |r.value| == |props.candidatos|
  {
    RowsUpTo(props, tables, exp, |props.candidatos|)
  }

  /** The derivation fails exactly when a conversion is attempted (ENEM
      scores are shown, and at least one candidate has a score) and the
      area is missing from the year read; without ENEM scores it never
      fails. */
  lemma DadosFailsOnlyOnMissingArea(props: Props, tables: EnemTables, exp: real -> real)
    requires ExpPositive(exp)
    requires Derivable(props, tables)
    ensures Dados(props, tables, exp).Failure? <==>
      && props.mostrarENEM && 0 < |props.escores| && 0 < |props.candidatos|
      && AreaMissing(props, tables)
    ensures !props.mostrarENEM ==> Dados(props, tables, exp).Success?
  {
    var r := Dados(props, tables, exp);
    if props.mostrarENEM && 0 < |props.escores| && 0 < |props.candidatos| && AreaMissing(props, tables) {
      assert RowDefined(props, tables, 0);
      assert Row(props, tables, exp, 0).Failure?;
    }
  }

  /** A candidate without a score shows θ = 0, a zero error, the interval
      [0, 0] and no ENEM band, whatever `mostrarENEM` says. */
  lemma UnscoredCandidate(props: Props, tables: EnemTables, exp: real -> real, idx: nat)
    requires ExpPositive(exp)
    requires RowDefined(props, tables, idx)
    requires idx >= |props.escores|
    ensures Row(props, tables, exp, idx).Success?
    ensures var row := Row(props, tables, exp, idx).value;
            row.theta == 0.0 && row.erroPadrao == 0.0 && row.ic95 == (0.0, 0.0) && row.notaENEM.None?
  {
  }

  // ---------------------------------------------------------------------
  // Search

  /** The search predicate: the lower-cased name contains the lower-cased
      term, or the decimal `id` contains the term as typed. */
  predicate Matches(row: CandidateRow, term: string) {
    Contains(ToLower(row.nome), ToLower(term)) || Contains(NatToString(row.id), term)
  }

  /** `filtered`: the rows the search keeps, in their original order. */
  function Filtrar(dados: seq<CandidateRow>, term: string): (r: seq<CandidateRow>)
    ensures |r| <= |dados|
    ensures forall row :: row in r <==> row in dados && Matches(row, term)
  {
    Seqs.Filter(dados, (row: CandidateRow) => Matches(row, term))
  }

  /** Searching consecutive blocks of rows keeps the matches of each block,
      block by block: the filter keeps the table's order. */
  lemma FiltrarConcat(a: seq<CandidateRow>, b: seq<CandidateRow>, term: string)
    ensures Filtrar(a + b, term) == Filtrar(a, term) + Filtrar(b, term)
  {
    Seqs.FilterConcat(a, b, (row: CandidateRow) => Matches(row, term));
  }

  /** A single row is kept exactly when it matches. */
  lemma FiltrarOne(row: CandidateRow, term: string)
    ensures Filtrar([row], term) == if Matches(row, term) then [row] else []
  {
    assert [row][1..] == [];
  }

  /** An empty search keeps every row, in order. */
  lemma EmptySearchKeepsAll(dados: seq<CandidateRow>)
    ensures Filtrar(dados, "") == dados
  {
    forall i | 0 <= i < |dados|
      ensures Matches(dados[i], "")
    {
      ContainsEmpty(ToLower(dados[i].nome));
    }
    Seqs.FilterAll(dados, (row: CandidateRow) => Matches(row, ""));
  }

  lemma LowerCharIdempotent(ch: char)
    ensures LowerChar(LowerChar(ch)) == LowerChar(ch)
  {
  }

  lemma ToLowerIdempotent(s: string)
    ensures ToLower(ToLower(s)) == ToLower(s)
  {
    forall i | 0 <= i < |s|
      ensures ToLower(ToLower(s))[i] == ToLower(s)[i]
    {
      LowerCharIdempotent(s[i]);
    }
  }

  /** An all-digit string is its own lower case. */
  lemma ToLowerDigits(s: string)
    requires forall i :: 0 <= i < |s| ==> IsDigit(s[i])
    ensures ToLower(s) == s
  {
  }

  /** A search for a string containing an upper-case letter keeps the rows
      that the lower-cased search keeps: the name comparison lower-cases
      both sides, and an id is all digits, so it can contain neither. */
  lemma SearchIgnoresCase(row: CandidateRow, term: string)
    ensures Matches(row, term) == Matches(row, ToLower(term))
  {
    ToLowerIdempotent(term);
    var id := NatToString(row.id);
    if forall i :: 0 <= i < |term| ==> IsDigit(term[i]) {
      ToLowerDigits(term);
    } else {
      var k :| 0 <= k < |term| && !IsDigit(term[k]);
      assert !IsDigit(ToLower(term)[k]);
      DigitsHoldNoNonDigit(id, term, k);
      DigitsHoldNoNonDigit(id, ToLower(term), k);
    }
  }

  /** A string of digits holds no substring with a non-digit in it. */
  lemma DigitsHoldNoNonDigit(s: string, t: string, k: nat)
    requires forall i :: 0 <= i < |s| ==> IsDigit(s[i])
    requires k < |t| && !IsDigit(t[k])
    ensures !Contains(s, t)
  {
    forall i
      ensures !OccursAt(s, t, i)
    {
      if 0 <= i && i + |t| <= |s| {
        assert s[i..i + |t|][k] == s[i + k];
      }
    }
  }

  // ---------------------------------------------------------------------
  // Pagination

  /** `Math.ceil(n / 50)`. */
  function TotalPages(n: nat): (t: nat)
    ensures t == 0 <==> n == 0
    ensures n <= t * ItemsPerPage
    ensures n > 0 ==> (t - 1) * ItemsPerPage < n
  {
    (n + ItemsPerPage - 1) / ItemsPerPage
  }

  /** Where `Array.prototype.slice` reads an index argument: a negative one
      counts from the end, and both are clamped to the sequence. */
  function SliceIndex(len: nat, k: int): (r: nat)
    ensures r <= len
    ensures 0 <= k <= len ==> r == k
  {
    if k < 0 then (if len + k < 0 then 0 else len + k)
    else if k > len then len
    else k
  }

  /** `s.slice(start, end)`. */
  function Slice<T>(s: seq<T>, start: int, end: int): (r: seq<T>)
    ensures var from, to := SliceIndex(|s|, start), SliceIndex(|s|, end);
            && (from <= to ==> r == s[from..to])
            && (to < from ==> r == [])
  {
    var from, to := SliceIndex(|s|, start), SliceIndex(|s|, end);
    if from <= to then s[from..to] else []
  }

  /** The rows on page `p` (pages count from 1). */
  function Page<T>(f: seq<T>, p: int): seq<T> {
    var start := (p - 1) * ItemsPerPage;
    Slice(f, start, start + ItemsPerPage)
  }

  /** On any page, even an out-of-range one, there are at most 50 rows. */
  lemma PageSize<T>(f: seq<T>, p: int)
    ensures |Page(f, p)| <= ItemsPerPage
  {
  }

  /** Page `p >= 1` holds the rows from position `(p-1)*50`, as many as
      remain up to 50. */
  lemma PageContents<T>(f: seq<T>, p: int)
    requires p >= 1
    ensures var start := (p - 1) * ItemsPerPage;
            && |Page(f, p)| == (if start >= |f| then 0 else if |f| - start < ItemsPerPage then |f| - start else ItemsPerPage)
            && forall k :: 0 <= k < |Page(f, p)| ==> Page(f, p)[k] == f[start + k]
  {
  }

  /** Every filtered row appears on exactly the page its position puts it
      on, and that page is within `[1, totalPages]`. */
  lemma PageOfRow<T>(f: seq<T>, i: nat)
    requires i < |f|
    ensures 1 <= i / ItemsPerPage + 1 <= TotalPages(|f|)
    ensures i % ItemsPerPage < |Page(f, i / ItemsPerPage + 1)|
    ensures Page(f, i / ItemsPerPage + 1)[i % ItemsPerPage] == f[i]
  {
    var p := i / ItemsPerPage + 1;
    assert (p - 1) * ItemsPerPage + i % ItemsPerPage == i;
    PageContents(f, p);
  }

  /** Pages 1 to `k`, one after the other. */
  function PagesUpTo<T>(f: seq<T>, k: nat): seq<T> {
    if k == 0 then [] else PagesUpTo(f, k - 1) + Page(f, k)
  }

  lemma {:induction false} PagesUpToIsPrefix<T>(f: seq<T>, k: nat)
    ensures PagesUpTo(f, k) == f[..if k * ItemsPerPage <= |f| then k * ItemsPerPage else |f|]
  {
    if k > 0 {
      PagesUpToIsPrefix(f, k - 1);
      PageContents(f, k);
      var lo := (k - 1) * ItemsPerPage;
      var a := if lo <= |f| then lo else |f|;
      var b := if k * ItemsPerPage <= |f| then k * ItemsPerPage else |f|;
      assert Page(f, k) == f[a..b];
      assert f[..a] + f[a..b] == f[..b];
    }
  }

  /** Pages 1 to `totalPages`, concatenated, are the filtered rows: the
      pages are disjoint and together cover everything. */
  lemma PagesCoverAll<T>(f: seq<T>)
    ensures PagesUpTo(f, TotalPages(|f|)) == f
  {
    PagesUpToIsPrefix(f, TotalPages(|f|));
  }

  // ---------------------------------------------------------------------
  // Level badge

  datatype Nivel = Avancado | Intermediario | Basico

  datatype BadgeVariant = Default | Secondary | Outline

  /** The level label. */
  function NivelDe(theta: real): (n: Nivel)
    ensures n == Avancado <==> theta > 1.0
    ensures n == Intermediario <==> -0.5 < theta <= 1.0
    ensures n == Basico <==> theta <= -0.5
  {
    if theta > 1.0 then Avancado
    else if theta > -0.5 then Intermediario
    else Basico
  }

  /** The badge's variant, chosen by its own chain of comparisons. */
  function VarianteDe(theta: real): BadgeVariant {
    if theta > 1.0 then Default
    else if theta > -0.5 then Secondary
    else Outline
  }

  /** The variant and the label always tell the same level. */
  lemma BadgeMatchesLevel(theta: real)
    ensures VarianteDe(theta) == Default <==> NivelDe(theta) == Avancado
    ensures VarianteDe(theta) == Secondary <==> NivelDe(theta) == Intermediario
    ensures VarianteDe(theta) == Outline <==> NivelDe(theta) == Basico
  {
  }

  // ---------------------------------------------------------------------
  // Component state

  /** The component's state, `searchTerm` and `currentPage`, over the
      derived rows. */
  class CandidateTableView {
    const dados: seq<CandidateRow>
    var searchTerm: string
    var currentPage: int

    constructor (dados: seq<CandidateRow>)
      ensures this.dados == dados
      ensures searchTerm == "" && currentPage == 1
    {
      this.dados := dados;
      searchTerm := "";
      currentPage := 1;
    }

    function Filtered(): seq<CandidateRow>
      reads this
    {
      Filtrar(dados, searchTerm)
    }

    function Pages(): nat
      reads this
    {
      TotalPages(|Filtered()|)
    }

    function Paginated(): seq<CandidateRow>
      reads this
    {
      Page(Filtered(), currentPage)
    }

    /** The search box's `onChange`; the page is left where it was. */
    method SetSearchTerm(term: string)
      modifies this
      ensures searchTerm == term && currentPage == old(currentPage)
    {
      searchTerm := term;
    }

    /** "Anterior": `p => Math.max(1, p - 1)`. */
    method Previous()
      modifies this
      ensures currentPage == if old(currentPage) - 1 < 1 then 1 else old(currentPage) - 1
      ensures searchTerm == old(searchTerm)
      ensures currentPage >= 1
      ensures 1 <= old(currentPage) <= Pages() ==> 1 <= currentPage <= Pages()
    {
      currentPage := if currentPage - 1 < 1 then 1 else currentPage - 1;
    }

    /** "Próxima": `p => Math.min(totalPages, p + 1)`. */
    method Next()
      modifies this
      ensures currentPage == if Pages() < old(currentPage) + 1 then Pages() else old(currentPage) + 1
      ensures searchTerm == old(searchTerm)
      ensures currentPage <= Pages()
      ensures 1 <= old(currentPage) <= Pages() ==> 1 <= currentPage <= Pages()
    {
      var t := Pages();
      currentPage := if t < currentPage + 1 then t else currentPage + 1;
    }
  }
}
