// The processed ENEM data: the year-to-year comparison of area means, the
// list of available years, and the mock 2024 dataset used as a fallback.

module EnemData {
  import opened Wrappers
  import opened EnemConversion

  datatype Estatisticas = Estatisticas(
    nPresentes: int,
    nFaltantes: int,
    media: real,
    mediana: real,
    dp: real,
    min: real,
    max: real,
    p10: real,
    p25: real,
    p75: real,
    p90: real)

  datatype RowAmplitude = RowAmplitude(acertos: int, notaMin: Option<real>, notaMed: Option<real>, notaMax: Option<real>)

  /** One area of one year. The school and per-state lists are not read by
      any modelled operation and are left out. */
  datatype YearData = YearData(
    ano: int,
    area: Area,
    nItens: int,
    estatisticas: Option<Estatisticas>,
    tabelaAmplitude: seq<RowAmplitude>)

  datatype Metadata = Metadata(
    ano: int,
    dataProcessamento: string,
    totalInscritos: int,
    arquivoFonte: string,
    areasProcessadas: seq<string>)

  /** A processed year; each area may be absent. */
  datatype CompleteData = CompleteData(metadata: Metadata, areas: map<Area, YearData>)

  /** `dados[area]?.estatisticas`. */
  function Stats(d: CompleteData, area: Area): (r: Option<Estatisticas>)
    ensures r.Some? <==> area in d.areas && d.areas[area].estatisticas.Some?
  {
    if area in d.areas then d.areas[area].estatisticas else None
  }

  // ---------------------------------------------------------------------
  // compararAnos

  /** `variacaoPercentual` is `None` where the first mean is 0 and the
      source divides by zero. */
  datatype Comparacao = Comparacao(variacaoMedia: real, variacaoPercentual: Option<real>)

  function Compare(s1: Estatisticas, s2: Estatisticas): (c: Comparacao)
    ensures c.variacaoMedia == s2.media - s1.media
    ensures c.variacaoPercentual.None? <==> s1.media == 0.0
    ensures c.variacaoPercentual.Some? ==> c.variacaoPercentual.value * s1.media == c.variacaoMedia * 100.0
  {
    var variacaoMedia := s2.media - s1.media;
    if s1.media == 0.0 then Comparacao(variacaoMedia, None)
    else
      var q := variacaoMedia / s1.media;
      assert q * s1.media == variacaoMedia;
      Comparacao(variacaoMedia, Some(q * 100.0))
  }

  /** What `compararAnos` returns: an entry for every area both datasets
      have statistics for. */
  function Comparacoes(d1: CompleteData, d2: CompleteData): (r: map<Area, Comparacao>)
    ensures forall a :: a in r <==> Stats(d1, a).Some? && Stats(d2, a).Some?
    ensures forall a :: a in r ==> r[a] == Compare(Stats(d1, a).value, Stats(d2, a).value)
  {
    map a | a in d1.areas && a in d2.areas && Stats(d1, a).Some? && Stats(d2, a).Some? ::
      Compare(Stats(d1, a).value, Stats(d2, a).value)
  }

  /** The `for` loop over the four areas, filling `resultado`. */
  method CompararAnos(d1: CompleteData, d2: CompleteData) returns (resultado: map<Area, Comparacao>)
    ensures resultado == Comparacoes(d1, d2)
  {
    var areas := AreasDisponiveis();
    resultado := map[];
    for k := 0 to |areas|
      invariant forall a :: a in resultado <==> a in areas[..k] && Stats(d1, a).Some? && Stats(d2, a).Some?
      invariant forall a :: a in resultado ==> resultado[a] == Compare(Stats(d1, a).value, Stats(d2, a).value)
    {
      var area := areas[k];
      var stats1 := Stats(d1, area);
      var stats2 := Stats(d2, area);
      if stats1.Some? && stats2.Some? {
        resultado := resultado[area := Compare(stats1.value, stats2.value)];
      }
    }
    assert areas[..|areas|] == areas;
    assert resultado.Keys == Comparacoes(d1, d2).Keys;
  }

  /** A dataset compared with itself keeps every area with statistics, with
      no change in the mean, and 0% whenever the mean is not 0. */
  lemma CompareSelf(d: CompleteData)
    ensures forall a :: a in Comparacoes(d, d) <==> Stats(d, a).Some?
    ensures forall a :: a in Comparacoes(d, d) ==> Comparacoes(d, d)[a].variacaoMedia == 0.0
    ensures forall a :: a in Comparacoes(d, d) && Stats(d, a).value.media != 0.0 ==>
      Comparacoes(d, d)[a].variacaoPercentual == Some(0.0)
  {
  }

  /** Swapping the datasets keeps the same areas and negates every change
      in the mean. */
  lemma CompareSwap(d1: CompleteData, d2: CompleteData)
    ensures Comparacoes(d1, d2).Keys == Comparacoes(d2, d1).Keys
    ensures forall a :: a in Comparacoes(d1, d2) ==>
      Comparacoes(d2, d1)[a].variacaoMedia == -Comparacoes(d1, d2)[a].variacaoMedia
  {
  }

  /** With positive means the percentage has the sign of the change. */
  lemma ComparePercentSign(s1: Estatisticas, s2: Estatisticas)
    requires s1.media > 0.0
    ensures Compare(s1, s2).variacaoPercentual.Some?
    ensures Compare(s1, s2).variacaoPercentual.value > 0.0 <==> s2.media > s1.media
    ensures Compare(s1, s2).variacaoPercentual.value < 0.0 <==> s2.media < s1.media
  {
    var p := Compare(s1, s2).variacaoPercentual.value;
    var v := s2.media - s1.media;
    assert p * s1.media == v * 100.0;
    if p > 0.0 {
      assert p * s1.media > 0.0;
    } else if p < 0.0 {
      assert (-p) * s1.media > 0.0;
    }
  }

  // ---------------------------------------------------------------------
  // The mock 2024 data

  /** `Array.from({length: n + 1}, ...)`: row 0 is 300 in every column, row
      `i > 0` is `base + i * step` per column. */
  function MockTabela(nItens: nat, baseMin: real, passoMin: real, baseMed: real, passoMed: real,
                      baseMax: real, passoMax: real): (t: seq<RowAmplitude>)
    ensures |t| == nItens + 1
  {
    seq(nItens + 1, i requires 0 <= i <= nItens =>
      RowAmplitude(
        i,
        Some(if i == 0 then 300.0 else baseMin + i as real * passoMin),
        Some(if i == 0 then 300.0 else baseMed + i as real * passoMed),
        Some(if i == 0 then 300.0 else baseMax + i as real * passoMax)))
  }

  function MockArea(area: Area, nItens: nat, stats: Estatisticas, tabela: seq<RowAmplitude>): YearData {
    YearData(2024, area, nItens, Some(stats), tabela)
  }

  /** `MOCK_ENEM_2024`; the processing date is the clock's reading. */
  function Mock2024(dataProcessamento: string): CompleteData {
    CompleteData(
      Metadata(2024, dataProcessamento, 4332944, "RESULTADOS_2024.csv", ["CH", "CN", "LC", "MT"]),
      map[
        CH := MockArea(CH, 45,
          Estatisticas(3167955, 1164989, 511.0, 508.2, 93.1, 0.0, 819.7, 389.5, 451.2, 568.4, 629.8),
          MockTabela(45, 300.0, 11.5, 320.0, 11.2, 340.0, 10.8)),
        CN := MockArea(CN, 45,
          Estatisticas(3004981, 1327963, 493.9, 487.3, 79.1, 0.0, 867.2, 381.2, 439.8, 546.5, 601.4),
          MockTabela(45, 300.0, 12.5, 315.0, 12.2, 330.0, 11.8)),
        LC := MockArea(LC, 50,
          Estatisticas(3167955, 1164989, 524.5, 521.8, 70.0, 0.0, 795.8, 428.5, 476.3, 571.2, 615.4),
          MockTabela(50, 300.0, 9.8, 320.0, 9.5, 340.0, 9.1)),
        MT := MockArea(MT, 45,
          Estatisticas(3004981, 1327963, 527.0, 519.4, 114.2, 0.0, 961.9, 389.7, 448.6, 598.3, 678.5),
          MockTabela(45, 300.0, 14.5, 325.0, 14.2, 350.0, 13.8))])
  }

  /** The fallback of `carregarDadosENEM` when no processed file is
      found: the mock data for 2024, nothing for any other year. */
  function MockFallback(ano: int, dataProcessamento: string): (r: Option<CompleteData>)
    ensures r.Some? <==> ano == 2024
    ensures r.Some? ==> r.value == Mock2024(dataProcessamento)
  {
    if ano == 2024 then Some(Mock2024(dataProcessamento)) else None
  }

  /** `listarAnosDisponiveis`. */
  function ListarAnosDisponiveis(): (anos: seq<int>)
    ensures |anos| == 1
    ensures forall y, dataProcessamento :: y in anos <==> MockFallback(y, dataProcessamento).Some?
  {
    [2024]
  }

  /** Every mock area has all four areas' data with `nItens + 1` rows (46,
      or 51 for LC), row `i` has `acertos == i`, and row 0 is 300 in every
      column. */
  lemma MockShape(dataProcessamento: string, area: Area)
    ensures var d := Mock2024(dataProcessamento);
            && area in d.areas
            && var y := d.areas[area];
            && y.nItens == (if area == LC then 50 else 45)
            && |y.tabelaAmplitude| == y.nItens + 1
            && (forall i :: 0 <= i < |y.tabelaAmplitude| ==> y.tabelaAmplitude[i].acertos == i)
            && y.tabelaAmplitude[0] == RowAmplitude(0, Some(300.0), Some(300.0), Some(300.0))
  {
  }

  /** Each mock column strictly increases with the number of correct
      answers, since every base is at least 300 and every step positive. */
  lemma MockIncreasing(nItens: nat, baseMin: real, passoMin: real, baseMed: real, passoMed: real,
                       baseMax: real, passoMax: real, i: nat, j: nat)
    requires baseMin >= 300.0 && baseMed >= 300.0 && baseMax >= 300.0
    requires passoMin > 0.0 && passoMed > 0.0 && passoMax > 0.0
    requires i < j <= nItens
    ensures var t := MockTabela(nItens, baseMin, passoMin, baseMed, passoMed, baseMax, passoMax);
            && t[i].notaMin.value < t[j].notaMin.value
            && t[i].notaMed.value < t[j].notaMed.value
            && t[i].notaMax.value < t[j].notaMax.value
  {
    var t := MockTabela(nItens, baseMin, passoMin, baseMed, passoMed, baseMax, passoMax);
    StepIncreasing(i, j, passoMin);
    StepIncreasing(i, j, passoMed);
    StepIncreasing(i, j, passoMax);
    if i > 0 {
      assert t[i].notaMin.value == baseMin + i as real * passoMin;
    }
  }

  lemma StepIncreasing(i: nat, j: nat, passo: real)
    requires i < j && passo > 0.0
    ensures i as real * passo < j as real * passo
    ensures 0.0 < j as real * passo
  {
    assert j as real * passo - i as real * passo == (j - i) as real * passo;
  }

  /** In the mock CN table the MAX column falls below the MED column from
      38 correct answers on, since its step (11.8) is smaller than MED's
      (12.2) by more than its 15-point head start allows. */
  lemma MockCNMaxBelowMed(dataProcessamento: string)
    ensures var t := Mock2024(dataProcessamento).areas[CN].tabelaAmplitude;
            && t[37].notaMax.value >= t[37].notaMed.value
            && forall i :: 38 <= i < |t| ==> t[i].notaMax.value < t[i].notaMed.value
  {
    var t := Mock2024(dataProcessamento).areas[CN].tabelaAmplitude;
    forall i | 38 <= i < |t|
      ensures t[i].notaMax.value < t[i].notaMed.value
    {
      assert t[i].notaMax.value == 330.0 + i as real * 11.8;
      assert t[i].notaMed.value == 315.0 + i as real * 12.2;
    }
  }
}
