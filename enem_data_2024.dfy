// The 2024 reference data: an exact-match lookup over the table of score
// ranges, and the two getters over the stored per-area data.

module EnemData2024 {
  import opened Wrappers
  import opened EnemConversion
  import Seqs

  /** One row of `tabela_amplitude`: unlike the historical tables, all
      three values are present. */
  datatype Row2024 = Row2024(acertos: int, notaMin: real, notaMed: real, notaMax: real)

  datatype Estatisticas2024 = Estatisticas2024(
    nPresentes: int,
    media: real,
    mediana: real,
    dp: real,
    min: real,
    max: real,
    p10: real,
    p25: real,
    p75: real,
    p90: real)

  /** One area of the 2024 file. Either part may be missing from the data,
      which the source reads through optional chaining. */
  datatype AreaData2024 = AreaData2024(
    ano: int,
    area: Area,
    nItens: int,
    estatisticas: Option<Estatisticas2024>,
    tabelaAmplitude: Option<seq<Row2024>>)

  /** The loaded file, keyed by area; an area may be absent. */
  type Dados2024 = map<Area, AreaData2024>

  function Coluna(row: Row2024, tipo: Tipo): real {
    match tipo
    case Min => row.notaMin
    case Med => row.notaMed
    case Max => row.notaMax
  }

  /** `getTabela2024`: the stored table of the area, when there is one. */
  function GetTabela2024(dados: Dados2024, area: Area): (r: Option<seq<Row2024>>)
    ensures r.Some? <==> area in dados && dados[area].tabelaAmplitude.Some?
    ensures r.Some? ==> r.value == dados[area].tabelaAmplitude.value
  {
    if area in dados then dados[area].tabelaAmplitude else None
  }

  /** `getEstatisticas2024`: the stored statistics of the area, when there
      are any. */
  function GetEstatisticas2024(dados: Dados2024, area: Area): (r: Option<Estatisticas2024>)
    ensures r.Some? <==> area in dados && dados[area].estatisticas.Some?
    ensures r.Some? ==> r.value == dados[area].estatisticas.value
  {
    if area in dados then dados[area].estatisticas else None
  }

  /** `tabela.find(r => r.acertos === acertos)`, as a position. The
      comparison is exact: a fractional score matches no row. */
  function FindExact(tabela: seq<Row2024>, acertos: real): (r: Option<nat>)
    ensures r.Some? ==> r.value < |tabela| && tabela[r.value].acertos as real == acertos
    ensures r.Some? ==> forall j :: 0 <= j < r.value ==> tabela[j].acertos as real != acertos
    ensures r.None? <==> forall j :: 0 <= j < |tabela| ==> tabela[j].acertos as real != acertos
  {
    Seqs.FindIndex(tabela, (row: Row2024) => row.acertos as real == acertos)
  }

  /** `acertosParaNota2024`; an omitted `tipo` is `'med'`. */
  function AcertosParaNota2024(dados: Dados2024, acertos: real, area: Area, tipo: Option<Tipo>): (r: real)
    ensures GetTabela2024(dados, area).None? ==> r == 0.0
    ensures GetTabela2024(dados, area).Some? && FindExact(GetTabela2024(dados, area).value, acertos).None? ==> r == 0.0
    ensures GetTabela2024(dados, area).Some? && FindExact(GetTabela2024(dados, area).value, acertos).Some? ==>
      r == Coluna(GetTabela2024(dados, area).value[FindExact(GetTabela2024(dados, area).value, acertos).value],
                  tipo.GetOr(Med))
  {
    var tabela := GetTabela2024(dados, area);
    if tabela.None? then 0.0
    else
      var row := FindExact(tabela.value, acertos);
      if row.None? then 0.0
      else Coluna(tabela.value[row.value], tipo.GetOr(Med))
  }

  // ---------------------------------------------------------------------
  // Properties

  /** Omitting `tipo` reads the `notaMed` column. */
  lemma DefaultTipoIsMed(dados: Dados2024, acertos: real, area: Area)
    ensures AcertosParaNota2024(dados, acertos, area, None) == AcertosParaNota2024(dados, acertos, area, Some(Med))
  {
  }

  /** A fractional score never matches a row, so it converts to 0: there is
      no clamping and no interpolation. */
  lemma FractionalScoreIsZero(dados: Dados2024, acertos: real, area: Area, tipo: Option<Tipo>)
    requires acertos.Floor as real != acertos
    ensures AcertosParaNota2024(dados, acertos, area, tipo) == 0.0
  {
    var tabela := GetTabela2024(dados, area);
    if tabela.Some? {
      forall j | 0 <= j < |tabela.value|
        ensures tabela.value[j].acertos as real != acertos
      {
        assert (tabela.value[j].acertos as real).Floor == tabela.value[j].acertos;
      }
    }
  }

  /** An integer score with no row of its own (out of range, or a gap in the
      table) converts to 0. */
  lemma UnmatchedScoreIsZero(dados: Dados2024, k: int, area: Area, tipo: Option<Tipo>)
    requires area in dados && dados[area].tabelaAmplitude.Some?
    requires forall j :: 0 <= j < |dados[area].tabelaAmplitude.value| ==> dados[area].tabelaAmplitude.value[j].acertos != k
    ensures AcertosParaNota2024(dados, k as real, area, tipo) == 0.0
  {
  }

  /** When several rows carry the score, the first one is read, whatever
      the later ones hold. */
  lemma FirstMatchWins(dados: Dados2024, area: Area, i: nat, tipo: Tipo)
    requires area in dados && dados[area].tabelaAmplitude.Some?
    requires i < |dados[area].tabelaAmplitude.value|
    requires var t := dados[area].tabelaAmplitude.value;
             forall j :: 0 <= j < i ==> t[j].acertos != t[i].acertos
    ensures var t := dados[area].tabelaAmplitude.value;
            AcertosParaNota2024(dados, t[i].acertos as real, area, Some(tipo)) == Coluna(t[i], tipo)
  {
    var t := dados[area].tabelaAmplitude.value;
    assert FindExact(t, t[i].acertos as real) == Some(i);
  }
}
