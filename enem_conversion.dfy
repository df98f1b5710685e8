/** The ENEM conversion engine: raw (possibly fractional) scores to the
    MIN/MED/MAX scale of an INEP reference table, the 3PL expected score of
    an ability, and summary statistics of a table.

    The reference tables are a parameter (`EnemTables`), and so is
    `Math.exp`: every function that evaluates the logistic curve takes it as
    `exp` and requires only that it is positive; lemmas that need more of
    the exponential say so with `ExpLike`. */
module EnemConversion {
  import opened Wrappers
  import opened Types
  import Seqs

  datatype Area = CH | CN | LC | MT

  /** Which column of a reference row is read. */
  datatype Tipo = Min | Med | Max

  function AreaCode(area: Area): string {
    match area
    case CH => "CH"
    case CN => "CN"
    case LC => "LC"
    case MT => "MT"
  }

  /** `getAreasDisponiveis`. */
  function AreasDisponiveis(): (r: seq<Area>)
    ensures |r| == 4
    ensures forall a: Area :: a in r
    ensures forall i, j :: 0 <= i < j < |r| ==> r[i] != r[j]
  {
    var r := [CH, CN, LC, MT];
    assert forall a: Area :: (a.CH? || a.CN? || a.LC? || a.MT?) ==> a in r;
    r
  }

  /** One row of a reference table; a score column may be null. */
  datatype ConversionRow = ConversionRow(
    acertos: int,
    notaMin: Option<real>,
    notaMed: Option<real>,
    notaMax: Option<real>)

  datatype AreaTable = AreaTable(nItens: int, tabela: seq<ConversionRow>)

  datatype YearTable = YearTable(
    ano: int,
    exame: string,
    modelo: string,
    metodo: string,
    escalaMin: real,
    escalaMax: real,
    areas: map<Area, AreaTable>)

  /** The historical reference data, keyed by year. */
  type EnemTables = map<int, YearTable>

  /** The error thrown when the year exists but lacks the area. */
  datatype ConversionError = AreaNotFound(area: Area, ano: int)

  /** The year whose data a conversion actually reads: an unknown year
      falls back to 2023. */
  function EffectiveYear(tables: EnemTables, ano: int): int {
    if ano in tables then ano else 2023
  }

  function Nota(row: ConversionRow, tipo: Tipo): Option<real> {
    match tipo
    case Min => row.notaMin
    case Med => row.notaMed
    case Max => row.notaMax
  }

  /** The value that replaces a null score: 0, 500 or 1000. */
  function DefaultNota(tipo: Tipo): real {
    match tipo
    case Min => 0.0
    case Med => 500.0
    case Max => 1000.0
  }

  /** `Math.max(0, Math.min(x, hi))`. */
  function Clamp(x: real, hi: real): (r: real)
    ensures r >= 0.0
    ensures hi >= 0.0 ==> r <= hi
    ensures 0.0 <= x <= hi ==> r == x
    ensures x <= 0.0 ==> r == 0.0
    ensures hi >= 0.0 && x >= hi ==> r == hi
  {
    var m := if x < hi then x else hi;
    if m > 0.0 then m else 0.0
  }

  /** `tabela.find(r => r.acertos === k)`, as the position of that row. */
  function FindRow(tabela: seq<ConversionRow>, k: int): (r: Option<nat>)
    ensures r.Some? ==> r.value < |tabela| && tabela[r.value].acertos == k
    ensures r.Some? ==> forall j :: 0 <= j < r.value ==> tabela[j].acertos != k
    ensures r.None? <==> forall j :: 0 <= j < |tabela| ==> tabela[j].acertos != k
  {
    Seqs.FindIndex(tabela, (row: ConversionRow) => row.acertos == k)
  }

  /** `tabela[0]?.[col] || 300`: JavaScript's `||` replaces a missing
      table, a null value and a 0 alike, so the result is never 0. */
  function FirstRowFallback(tabela: seq<ConversionRow>, tipo: Tipo): (r: real)
    ensures r != 0.0
    ensures r == 300.0 || (|tabela| > 0 && Nota(tabela[0], tipo) == Some(r))
  {
    if |tabela| == 0 then 300.0
    else match Nota(tabela[0], tipo)
      case None => 300.0
      case Some(v) => if v == 0.0 then 300.0 else v
  }

  /** Linear interpolation between two row values. */
  function Lerp(v1: real, v2: real, frac: real): real {
    v1 + (v2 - v1) * frac
  }

  /** The body of `acertosParaNotaENEM` once the area's table is known. */
  function ConvertInTable(acertos: real, t: AreaTable, tipo: Tipo): real {
    var clamped := Clamp(acertos, t.nItens as real);
    var idx := clamped.Floor;
    var frac := clamped - idx as real;
    var row1 := FindRow(t.tabela, idx);
    var row2 := FindRow(t.tabela, idx + 1);
    if row1.None? then
      FirstRowFallback(t.tabela, tipo)
    else if row2.None? || frac == 0.0 then
      Nota(t.tabela[row1.value], tipo).GetOr(DefaultNota(tipo))
    else
      var v1 := Nota(t.tabela[row1.value], tipo).GetOr(DefaultNota(tipo));
      var v2 := Nota(t.tabela[row2.value], tipo).GetOr(DefaultNota(tipo));
      Lerp(v1, v2, frac)
  }

  /** `acertosParaNotaENEM`. An unknown year is retried as 2023, which is
      why 2023 must be present when `ano` is not; a known year without the
      area is an error. */
  function AcertosParaNotaENEM(tables: EnemTables, acertos: real, ano: int, area: Area, tipo: Tipo): (r: Result<real, ConversionError>)
    requires ano in tables || 2023 in tables
    ensures r.Failure? <==> area !in tables[EffectiveYear(tables, ano)].areas
    ensures r.Failure? ==> r.error == AreaNotFound(area, EffectiveYear(tables, ano))
    ensures r.Success? ==> r.value == ConvertInTable(acertos, tables[EffectiveYear(tables, ano)].areas[area], tipo)
    decreases if ano in tables then 0 else 1
  {
    if ano !in tables then
      AcertosParaNotaENEM(tables, acertos, 2023, area, tipo)
    else if area !in tables[ano].areas then
      Failure(AreaNotFound(area, ano))
    else
      Success(ConvertInTable(acertos, tables[ano].areas[area], tipo))
  }

  // ---------------------------------------------------------------------
  // Properties of the conversion

  /** Scores below 0 convert as 0 does; scores above the item count convert
      as the item count does. */
  lemma ClampedScoresConvertAlike(acertos: real, t: AreaTable, tipo: Tipo)
    ensures acertos < 0.0 ==> ConvertInTable(acertos, t, tipo) == ConvertInTable(0.0, t, tipo)
    ensures acertos > t.nItens as real ==>
      ConvertInTable(acertos, t, tipo) == ConvertInTable(t.nItens as real, t, tipo)
  {
  }

  /** An integer score whose row exists reads that row: its stored value,
      or the default when the value is null. No interpolation happens. */
  lemma ExactRowLookup(k: int, t: AreaTable, tipo: Tipo)
    requires 0 <= k <= t.nItens
    requires FindRow(t.tabela, k).Some?
    ensures ConvertInTable(k as real, t, tipo)
         == Nota(t.tabela[FindRow(t.tabela, k).value], tipo).GetOr(DefaultNota(tipo))
    ensures Nota(t.tabela[FindRow(t.tabela, k).value], tipo).Some? ==>
      ConvertInTable(k as real, t, tipo) == Nota(t.tabela[FindRow(t.tabela, k).value], tipo).value
    ensures Nota(t.tabela[FindRow(t.tabela, k).value], tipo).None? ==>
      ConvertInTable(k as real, t, tipo) == DefaultNota(tipo)
  {
    assert (k as real).Floor == k;
  }

  /** A fractional in-range score whose floor row exists but whose next row
      does not reads the floor row, or the default when it is null: it is
      not interpolated. */
  lemma NextRowMissing(acertos: real, t: AreaTable, tipo: Tipo)
    requires 0.0 <= acertos <= t.nItens as real
    requires acertos.Floor as real != acertos
    requires FindRow(t.tabela, acertos.Floor).Some?
    requires FindRow(t.tabela, acertos.Floor + 1).None?
    ensures ConvertInTable(acertos, t, tipo)
         == Nota(t.tabela[FindRow(t.tabela, acertos.Floor).value], tipo).GetOr(DefaultNota(tipo))
  {
    assert Clamp(acertos, t.nItens as real) == acertos;
  }

  /** `v1 + (v2 - v1) * frac` with `frac` in [0, 1] lies between `v1` and `v2`. */
  lemma LerpBetween(v1: real, v2: real, frac: real)
    requires 0.0 <= frac <= 1.0
    ensures v1 <= v2 ==> v1 <= Lerp(v1, v2, frac) <= v2
    ensures v2 <= v1 ==> v2 <= Lerp(v1, v2, frac) <= v1
  {
    var d := v2 - v1;
    assert d - d * frac == d * (1.0 - frac);
    if d >= 0.0 {
      MulNonNegative(d, frac);
      MulNonNegative(d, 1.0 - frac);
    } else {
      MulNonNegative(-d, frac);
      MulNonNegative(-d, 1.0 - frac);
    }
  }

  lemma MulNonNegative(x: real, y: real)
    requires x >= 0.0 && y >= 0.0
    ensures x * y >= 0.0
  {
  }

  /** A fractional in-range score whose rows `floor` and `floor + 1` both
      exist is interpolated between exactly those two rows (nulls replaced by
      defaults first), and the result lies between the two values. */
  lemma Interpolation(acertos: real, t: AreaTable, tipo: Tipo)
    requires 0.0 <= acertos <= t.nItens as real
    requires acertos.Floor as real != acertos
    requires FindRow(t.tabela, acertos.Floor).Some?
    requires FindRow(t.tabela, acertos.Floor + 1).Some?
    ensures var v1 := Nota(t.tabela[FindRow(t.tabela, acertos.Floor).value], tipo).GetOr(DefaultNota(tipo));
            var v2 := Nota(t.tabela[FindRow(t.tabela, acertos.Floor + 1).value], tipo).GetOr(DefaultNota(tipo));
            var r := ConvertInTable(acertos, t, tipo);
            && r == Lerp(v1, v2, acertos - acertos.Floor as real)
            && (v1 <= v2 ==> v1 <= r <= v2)
            && (v2 <= v1 ==> v2 <= r <= v1)
  {
    var idx := acertos.Floor;
    var frac := acertos - idx as real;
    assert Clamp(acertos, t.nItens as real) == acertos;
    assert 0.0 < frac < 1.0;
    var v1 := Nota(t.tabela[FindRow(t.tabela, idx).value], tipo).GetOr(DefaultNota(tipo));
    var v2 := Nota(t.tabela[FindRow(t.tabela, idx + 1).value], tipo).GetOr(DefaultNota(tipo));
    assert ConvertInTable(acertos, t, tipo) == Lerp(v1, v2, frac);
    LerpBetween(v1, v2, frac);
  }

  /** When the (clamped) score's floor row is missing, the result is the
      first row's value, or 300 for an empty table or a null or zero value;
      it is not the nearest row. */
  lemma MissingFloorRow(acertos: real, t: AreaTable, tipo: Tipo)
    requires FindRow(t.tabela, Clamp(acertos, t.nItens as real).Floor).None?
    ensures ConvertInTable(acertos, t, tipo) == FirstRowFallback(t.tabela, tipo)
    ensures |t.tabela| == 0 ==> ConvertInTable(acertos, t, tipo) == 300.0
    ensures |t.tabela| > 0 && (Nota(t.tabela[0], tipo).None? || Nota(t.tabela[0], tipo) == Some(0.0)) ==>
      ConvertInTable(acertos, t, tipo) == 300.0
    ensures |t.tabela| > 0 && Nota(t.tabela[0], tipo).Some? && Nota(t.tabela[0], tipo) != Some(0.0) ==>
      ConvertInTable(acertos, t, tipo) == Nota(t.tabela[0], tipo).value
  {
  }

  /** A year absent from the data converts exactly as 2023 does. */
  lemma UnknownYearIs2023(tables: EnemTables, acertos: real, ano: int, area: Area, tipo: Tipo)
    requires ano !in tables && 2023 in tables
    ensures AcertosParaNotaENEM(tables, acertos, ano, area, tipo)
         == AcertosParaNotaENEM(tables, acertos, 2023, area, tipo)
  {
  }

  /** A year that exists but lacks the area raises the area error, with no
      fallback to another year. */
  lemma KnownYearMissingArea(tables: EnemTables, acertos: real, ano: int, area: Area, tipo: Tipo)
    requires ano in tables && area !in tables[ano].areas
    ensures AcertosParaNotaENEM(tables, acertos, ano, area, tipo) == Failure(AreaNotFound(area, ano))
  {
  }

  // ---------------------------------------------------------------------
  // The 3PL expected score

  /** What the model needs of `Math.exp` to be well defined. */
  ghost predicate ExpPositive(exp: real -> real) {
    forall x :: exp(x) > 0.0
  }

  /** The further facts about `Math.exp` used by the shape lemmas. */
  ghost predicate ExpLike(exp: real -> real) {
    && ExpPositive(exp)
    && exp(0.0) == 1.0
    && forall x, y :: x <= y ==> exp(x) <= exp(y)
  }

  function Discrimination(item: ItemParameters): real {
    item.a.GetOr(1.0)
  }

  function Guessing(item: ItemParameters): real {
    item.c.GetOr(0.0)
  }

  /** The logistic exponent `-a(θ - b)`. */
  function Expoente(a: real, theta: real, b: real): real {
    -a * (theta - b)
  }

  /** `c + (1 - c) / (1 + exp(-a(θ - b)))` with `a ?? 1` and `c ?? 0`. */
  function Probabilidade(exp: real -> real, theta: real, item: ItemParameters): real
    requires ExpPositive(exp)
  {
    var a := Discrimination(item);
    var c := Guessing(item);
    c + (1.0 - c) / (1.0 + exp(Expoente(a, theta, item.b)))
  }

  /** `itens.map(item => P(θ, item))`. */
  function Probabilidades(exp: real -> real, theta: real, itens: seq<ItemParameters>): (ps: seq<real>)
    requires ExpPositive(exp)
    ensures |ps| == |itens|
    ensures forall i :: 0 <= i < |itens| ==> ps[i] == Probabilidade(exp, theta, itens[i])
  {
    if itens == [] then []
    else [Probabilidade(exp, theta, itens[0])] + Probabilidades(exp, theta, itens[1..])
  }

  /** `thetaParaAcertosEsperados`: the expected raw score at θ. */
  function ThetaParaAcertosEsperados(exp: real -> real, theta: real, itens: seq<ItemParameters>): real
    requires ExpPositive(exp)
  {
    Seqs.Sum(Probabilidades(exp, theta, itens))
  }

  /** `thetaParaNotaENEM`: the expected score, unrounded, converted in the
      table of the year in effect. It fails exactly when that year has no
      table for the area; with every `c` in [0, 1) the score converted is
      one between 0 and the number of items. */
  function ThetaParaNotaENEM(tables: EnemTables, exp: real -> real, theta: real, itens: seq<ItemParameters>,
                             ano: int, area: Area, tipo: Tipo): (r: Result<real, ConversionError>)
    requires ExpPositive(exp)
    requires ano in tables || 2023 in tables
    ensures r.Failure? <==> area !in tables[EffectiveYear(tables, ano)].areas
    ensures r.Failure? ==> r.error == AreaNotFound(area, EffectiveYear(tables, ano))
    ensures r.Success? ==>
      r.value == ConvertInTable(ThetaParaAcertosEsperados(exp, theta, itens),
                                tables[EffectiveYear(tables, ano)].areas[area], tipo)
    ensures (forall i :: 0 <= i < |itens| ==> GuessingInRange(itens[i])) ==>
      0.0 <= ThetaParaAcertosEsperados(exp, theta, itens) <= |itens| as real
  {
    ExpectedScoreInRange(exp, theta, itens);
    AcertosParaNotaENEM(tables, ThetaParaAcertosEsperados(exp, theta, itens), ano, area, tipo)
  }

  lemma ExpectedScoreInRange(exp: real -> real, theta: real, itens: seq<ItemParameters>)
    requires ExpPositive(exp)
    ensures (forall i :: 0 <= i < |itens| ==> GuessingInRange(itens[i])) ==>
      0.0 <= ThetaParaAcertosEsperados(exp, theta, itens) <= |itens| as real
  {
    if forall i :: 0 <= i < |itens| ==> GuessingInRange(itens[i]) {
      ExpectedScoreBounds(exp, theta, itens);
    }
  }

  predicate GuessingInRange(item: ItemParameters) {
    0.0 <= Guessing(item) < 1.0
  }

  /** With `0 <= c < 1`, each item's probability lies strictly between `c`
      and 1. */
  lemma ProbabilidadeBounds(exp: real -> real, theta: real, item: ItemParameters)
    requires ExpPositive(exp)
    requires GuessingInRange(item)
    ensures Guessing(item) < Probabilidade(exp, theta, item) < 1.0
  {
    var c := Guessing(item);
    var e := exp(Expoente(Discrimination(item), theta, item.b));
    assert e > 0.0;
    var q := (1.0 - c) / (1.0 + e);
    assert q * (1.0 + e) == 1.0 - c;
    assert q > 0.0;
    assert q * e > 0.0;
    assert q < 1.0 - c;
  }

  /** The expected score of no items is 0. */
  lemma ExpectedScoreEmpty(exp: real -> real, theta: real)
    requires ExpPositive(exp)
    ensures ThetaParaAcertosEsperados(exp, theta, []) == 0.0
  {
  }

  /** With every `c` in [0, 1) the expected score lies in [0, n], strictly
      inside it when there is at least one item. */
  lemma ExpectedScoreBounds(exp: real -> real, theta: real, itens: seq<ItemParameters>)
    requires ExpPositive(exp)
    requires forall i :: 0 <= i < |itens| ==> GuessingInRange(itens[i])
    ensures 0.0 <= ThetaParaAcertosEsperados(exp, theta, itens) <= |itens| as real
    ensures |itens| > 0 ==> 0.0 < ThetaParaAcertosEsperados(exp, theta, itens) < |itens| as real
  {
    var ps := Probabilidades(exp, theta, itens);
    forall i | 0 <= i < |ps|
      ensures 0.0 < ps[i] < 1.0
    {
      ProbabilidadeBounds(exp, theta, itens[i]);
    }
    Seqs.SumStrictBounds(ps, 0.0, 1.0);
  }

  /** At θ = b the curve passes through its midpoint `c + (1 - c) / 2`. */
  lemma ProbabilidadeAtDifficulty(exp: real -> real, item: ItemParameters)
    requires ExpLike(exp)
    ensures Probabilidade(exp, item.b, item) == Guessing(item) + (1.0 - Guessing(item)) / 2.0
  {
    assert Expoente(Discrimination(item), item.b, item.b) == 0.0;
  }

  /** For `a >= 0` and `c <= 1` the probability does not decrease with θ. */
  lemma ProbabilidadeMonotone(exp: real -> real, t1: real, t2: real, item: ItemParameters)
    requires ExpLike(exp)
    requires Discrimination(item) >= 0.0 && Guessing(item) <= 1.0
    requires t1 <= t2
    ensures Probabilidade(exp, t1, item) <= Probabilidade(exp, t2, item)
  {
    var a, c := Discrimination(item), Guessing(item);
    var x1, x2 := Expoente(a, t1, item.b), Expoente(a, t2, item.b);
    assert x1 - x2 == a * (t2 - t1);
    assert a * (t2 - t1) >= 0.0;
    var e1, e2 := exp(x1), exp(x2);
    assert e2 <= e1 && e2 > 0.0;
    var q1, q2 := 1.0 / (1.0 + e1), 1.0 / (1.0 + e2);
    assert q1 * (1.0 + e1) == 1.0 && q2 * (1.0 + e2) == 1.0;
    assert q1 <= q2 by {
      assert q1 * (1.0 + e2) <= q1 * (1.0 + e1);
      assert q1 * (1.0 + e2) <= q2 * (1.0 + e2);
    }
    assert (1.0 - c) / (1.0 + e1) == (1.0 - c) * q1;
    assert (1.0 - c) / (1.0 + e2) == (1.0 - c) * q2;
    assert (1.0 - c) * q1 <= (1.0 - c) * q2;
  }

  /** The expected score does not decrease with θ when every item has
      `a >= 0` and `c <= 1`. */
  lemma ExpectedScoreMonotone(exp: real -> real, t1: real, t2: real, itens: seq<ItemParameters>)
    requires ExpLike(exp)
    requires forall i :: 0 <= i < |itens| ==> Discrimination(itens[i]) >= 0.0 && Guessing(itens[i]) <= 1.0
    requires t1 <= t2
    ensures ThetaParaAcertosEsperados(exp, t1, itens) <= ThetaParaAcertosEsperados(exp, t2, itens)
  {
    var p1, p2 := Probabilidades(exp, t1, itens), Probabilidades(exp, t2, itens);
    forall i | 0 <= i < |itens|
      ensures p1[i] <= p2[i]
    {
      ProbabilidadeMonotone(exp, t1, t2, itens[i]);
    }
    Seqs.SumMonotone(p1, p2);
  }

  /** A fractional score inside a known year's area, with both neighbouring
      rows present, converts successfully to the interpolated value. */
  lemma InterpolatedConversion(tables: EnemTables, s: real, ano: int, area: Area, tipo: Tipo)
    requires ano in tables && area in tables[ano].areas
    requires 0.0 <= s <= tables[ano].areas[area].nItens as real
    requires s.Floor as real != s
    requires FindRow(tables[ano].areas[area].tabela, s.Floor).Some?
    requires FindRow(tables[ano].areas[area].tabela, s.Floor + 1).Some?
    ensures var t := tables[ano].areas[area].tabela;
            var v1 := Nota(t[FindRow(t, s.Floor).value], tipo).GetOr(DefaultNota(tipo));
            var v2 := Nota(t[FindRow(t, s.Floor + 1).value], tipo).GetOr(DefaultNota(tipo));
            AcertosParaNotaENEM(tables, s, ano, area, tipo) == Success(Lerp(v1, v2, s - s.Floor as real))
  {
    var t := tables[ano].areas[area];
    assert EffectiveYear(tables, ano) == ano;
    var r := AcertosParaNotaENEM(tables, s, ano, area, tipo);
    assert r == Success(ConvertInTable(s, t, tipo));
    Interpolation(s, t, tipo);
    var v1 := Nota(t.tabela[FindRow(t.tabela, s.Floor).value], tipo).GetOr(DefaultNota(tipo));
    var v2 := Nota(t.tabela[FindRow(t.tabela, s.Floor + 1).value], tipo).GetOr(DefaultNota(tipo));
    assert ConvertInTable(s, t, tipo) == Lerp(v1, v2, s - s.Floor as real);
  }

  /** The composition does not round the expected score: when it is
      fractional and both neighbouring rows exist, the result interpolates
      with the expected score's own fractional part. */
  lemma ThetaParaNotaUsesUnroundedScore(tables: EnemTables, exp: real -> real, theta: real, itens: seq<ItemParameters>,
                                        ano: int, area: Area, tipo: Tipo)
    requires ExpPositive(exp)
    requires ano in tables && area in tables[ano].areas
    requires forall i :: 0 <= i < |itens| ==> GuessingInRange(itens[i])
    requires |itens| <= tables[ano].areas[area].nItens
    requires var s := ThetaParaAcertosEsperados(exp, theta, itens);
             var t := tables[ano].areas[area].tabela;
             && s.Floor as real != s
             && FindRow(t, s.Floor).Some? && FindRow(t, s.Floor + 1).Some?
    ensures ThetaParaNotaENEM(tables, exp, theta, itens, ano, area, tipo)
            == Success(Interpolated(tables[ano].areas[area].tabela, ThetaParaAcertosEsperados(exp, theta, itens), tipo))
  {
    var s := ThetaParaAcertosEsperados(exp, theta, itens);
    assert 0.0 <= s <= tables[ano].areas[area].nItens as real by {
      ExpectedScoreBounds(exp, theta, itens);
    }
    assert EffectiveYear(tables, ano) == ano;
    ConvertedFractionalScore(tables, ThetaParaNotaENEM(tables, exp, theta, itens, ano, area, tipo),
                             ThetaParaAcertosEsperados(exp, theta, itens), ano, area, tipo);
  }

  /** A successful conversion of a fractional score, in a table with both
      neighbouring rows, is the interpolated value. */
  lemma ConvertedFractionalScore(tables: EnemTables, r: Result<real, ConversionError>, s: real,
                                 ano: int, area: Area, tipo: Tipo)
    requires ano in tables && area in tables[ano].areas
    requires 0.0 <= s <= tables[ano].areas[area].nItens as real
    requires s.Floor as real != s
    requires FindRow(tables[ano].areas[area].tabela, s.Floor).Some?
    requires FindRow(tables[ano].areas[area].tabela, s.Floor + 1).Some?
    requires r == Success(ConvertInTable(s, tables[ano].areas[area], tipo))
    ensures r == Success(Interpolated(tables[ano].areas[area].tabela, s, tipo))
  {
    Interpolation(s, tables[ano].areas[area], tipo);
  }

  /** The value interpolated between the rows on either side of `s`, by the
      fractional part of `s`. */
  function Interpolated(t: seq<ConversionRow>, s: real, tipo: Tipo): real
    requires FindRow(t, s.Floor).Some? && FindRow(t, s.Floor + 1).Some?
  {
    var v1 := Nota(t[FindRow(t, s.Floor).value], tipo).GetOr(DefaultNota(tipo));
    var v2 := Nota(t[FindRow(t, s.Floor + 1).value], tipo).GetOr(DefaultNota(tipo));
    Lerp(v1, v2, s - s.Floor as real)
  }

  // ---------------------------------------------------------------------
  // getTabelaInfo

  datatype TabelaInfo = TabelaInfo(
    ano: int,
    area: Area,
    nItens: int,
    notaMinima: real,
    notaMaxima: real,
    mediaNacional: real,
    mediana: real,
    tabelaCompleta: seq<ConversionRow>)

  /** `tabela.map(r => col).filter(n => n !== null)`: the non-null values of
      a column, in table order. */
  function Validas(tabela: seq<ConversionRow>, tipo: Tipo): (r: seq<real>)
    ensures |r| <= |tabela|
    ensures forall x :: x in r <==> exists i :: 0 <= i < |tabela| && Nota(tabela[i], tipo) == Some(x)
  {
    if tabela == [] then []
    else
      var rest := Validas(tabela[1..], tipo);
      assert forall i :: 1 <= i < |tabela| ==> tabela[i] == tabela[1..][i - 1];
      match Nota(tabela[0], tipo)
      case None => rest
      case Some(v) => [v] + rest
  }

  /** One row contributes its value for `tipo` when it is present and
      nothing when it is null. */
  lemma ValidasOne(row: ConversionRow, tipo: Tipo)
    ensures Validas([row], tipo) == if Nota(row, tipo).Some? then [Nota(row, tipo).value] else []
  {
    assert [row][1..] == [];
  }

  /** The present values of consecutive row blocks come out block by block,
      in table order and with their multiplicity. */
  lemma {:induction false} ValidasConcat(a: seq<ConversionRow>, b: seq<ConversionRow>, tipo: Tipo)
    ensures Validas(a + b, tipo) == Validas(a, tipo) + Validas(b, tipo)
  {
    if a == [] {
      assert a + b == b;
    } else {
      assert (a + b)[0] == a[0];
      assert (a + b)[1..] == a[1..] + b;
      ValidasConcat(a[1..], b, tipo);
    }
  }

  /** `Math.min(...s)` of a non-empty list. */
  function Minimo(s: seq<real>): (r: real)
    requires |s| > 0
    ensures r in s
    ensures forall i :: 0 <= i < |s| ==> r <= s[i]
  {
    if |s| == 1 then s[0]
    else
      var m := Minimo(s[1..]);
      if s[0] <= m then s[0] else m
  }

  /** `Math.max(...s)` of a non-empty list. */
  function Maximo(s: seq<real>): (r: real)
    requires |s| > 0
    ensures r in s
    ensures forall i :: 0 <= i < |s| ==> s[i] <= r
  {
    if |s| == 1 then s[0]
    else
      var m := Maximo(s[1..]);
      if s[0] >= m then s[0] else m
  }

  /** `getTabelaInfo`: null for a missing year or area (no 2023 fallback
      here), otherwise statistics over the non-null values. */
  function GetTabelaInfo(tables: EnemTables, ano: int, area: Area): (r: Option<TabelaInfo>)
    ensures r.None? <==> ano !in tables || area !in tables[ano].areas
    ensures r.Some? ==>
      && r.value.ano == ano && r.value.area == area
      && r.value.nItens == tables[ano].areas[area].nItens
      && r.value.tabelaCompleta == tables[ano].areas[area].tabela
  {
    if ano !in tables || area !in tables[ano].areas then None
    else
      var t := tables[ano].areas[area];
      var mins := Validas(t.tabela, Min);
      var maxs := Validas(t.tabela, Max);
      var meds := Validas(t.tabela, Med);
      Some(TabelaInfo(
        ano, area, t.nItens,
        if |mins| > 0 then Minimo(mins) else 300.0,
        if |maxs| > 0 then Maximo(maxs) else 1000.0,
        if |meds| > 0 then Seqs.Sum(meds) / |meds| as real else 500.0,
        if |meds| / 2 < |meds| then meds[|meds| / 2] else 500.0,
        t.tabela))
  }

  /** The non-null values of a column are empty exactly when every row is
      null there; otherwise their least and greatest elements are values of
      some rows and bound every non-null value. */
  lemma ValidasExtremes(tabela: seq<ConversionRow>, tipo: Tipo)
    ensures |Validas(tabela, tipo)| == 0 <==> forall i :: 0 <= i < |tabela| ==> Nota(tabela[i], tipo).None?
    ensures var v := Validas(tabela, tipo);
            |v| > 0 ==>
              && (exists i :: 0 <= i < |tabela| && Nota(tabela[i], tipo) == Some(Minimo(v)))
              && (exists i :: 0 <= i < |tabela| && Nota(tabela[i], tipo) == Some(Maximo(v)))
              && (forall i :: 0 <= i < |tabela| && Nota(tabela[i], tipo).Some? ==>
                    Minimo(v) <= Nota(tabela[i], tipo).value <= Maximo(v))
  {
    var v := Validas(tabela, tipo);
    if |v| > 0 {
      assert Minimo(v) in v && Maximo(v) in v;
      forall i | 0 <= i < |tabela| && Nota(tabela[i], tipo).Some?
        ensures Minimo(v) <= Nota(tabela[i], tipo).value <= Maximo(v)
      {
        assert Nota(tabela[i], tipo).value in v;
      }
    }
  }

  /** `nota_minima` is the least non-null MIN value of the table, and 300
      when there is none. */
  lemma TabelaInfoMinima(tables: EnemTables, ano: int, area: Area)
    requires ano in tables && area in tables[ano].areas
    ensures var info := GetTabelaInfo(tables, ano, area).value;
            var tabela := tables[ano].areas[area].tabela;
            && ((forall i :: 0 <= i < |tabela| ==> tabela[i].notaMin.None?) ==> info.notaMinima == 300.0)
            && ((exists i :: 0 <= i < |tabela| && tabela[i].notaMin.Some?) ==>
                  && (exists i :: 0 <= i < |tabela| && tabela[i].notaMin == Some(info.notaMinima))
                  && forall i :: 0 <= i < |tabela| && tabela[i].notaMin.Some? ==> info.notaMinima <= tabela[i].notaMin.value)
  {
    var info := GetTabelaInfo(tables, ano, area).value;
    var tabela := tables[ano].areas[area].tabela;
    var v := Validas(tabela, Min);
    assert info.notaMinima == if |v| > 0 then Minimo(v) else 300.0;
    ValidasExtremes(tabela, Min);
    assert forall i :: 0 <= i < |tabela| ==> Nota(tabela[i], Min) == tabela[i].notaMin;
  }

  /** `nota_maxima` is the greatest non-null MAX value of the table, and 1000
      when there is none. */
  lemma TabelaInfoMaxima(tables: EnemTables, ano: int, area: Area)
    requires ano in tables && area in tables[ano].areas
    ensures var info := GetTabelaInfo(tables, ano, area).value;
            var tabela := tables[ano].areas[area].tabela;
            && ((forall i :: 0 <= i < |tabela| ==> tabela[i].notaMax.None?) ==> info.notaMaxima == 1000.0)
            && ((exists i :: 0 <= i < |tabela| && tabela[i].notaMax.Some?) ==>
                  && (exists i :: 0 <= i < |tabela| && tabela[i].notaMax == Some(info.notaMaxima))
                  && forall i :: 0 <= i < |tabela| && tabela[i].notaMax.Some? ==> tabela[i].notaMax.value <= info.notaMaxima)
  {
    var info := GetTabelaInfo(tables, ano, area).value;
    var tabela := tables[ano].areas[area].tabela;
    var v := Validas(tabela, Max);
    assert info.notaMaxima == if |v| > 0 then Maximo(v) else 1000.0;
    ValidasExtremes(tabela, Max);
    assert forall i :: 0 <= i < |tabela| ==> Nota(tabela[i], Max) == tabela[i].notaMax;
  }

  /** `media_nacional` is the mean of the non-null MED values (500 when there
      is none) and `mediana` is the element at index `floor(len / 2)` of
      that list in table order (500 when it is empty). */
  lemma TabelaInfoCentre(tables: EnemTables, ano: int, area: Area)
    requires ano in tables && area in tables[ano].areas
    ensures var info := GetTabelaInfo(tables, ano, area).value;
            var meds := Validas(tables[ano].areas[area].tabela, Med);
            && (|meds| == 0 ==> info.mediaNacional == 500.0 && info.mediana == 500.0)
            && (|meds| > 0 ==>
                  info.mediaNacional == Seqs.Sum(meds) / |meds| as real && info.mediana == meds[|meds| / 2])
            && (|meds| > 0 ==> Minimo(meds) <= info.mediaNacional <= Maximo(meds))
  {
    var meds := Validas(tables[ano].areas[area].tabela, Med);
    if |meds| > 0 {
      MeanBetween(meds, Minimo(meds), Maximo(meds));
    }
  }

  /** The mean of a non-empty list lies within any bounds of its elements. */
  lemma MeanBetween(s: seq<real>, lo: real, hi: real)
    requires |s| > 0
    requires forall i :: 0 <= i < |s| ==> lo <= s[i] <= hi
    ensures lo <= Seqs.Sum(s) / |s| as real <= hi
  {
    SumBetween(s, lo, hi);
    DivBetween(Seqs.Sum(s), |s| as real, lo, hi);
  }

  lemma DivBetween(x: real, n: real, lo: real, hi: real)
    requires n > 0.0
    requires n * lo <= x <= n * hi
    ensures lo <= x / n <= hi
  {
    var m := x / n;
    assert m * n == x;
  }

  lemma {:induction false} SumBetween(s: seq<real>, lo: real, hi: real)
    requires forall i :: 0 <= i < |s| ==> lo <= s[i] <= hi
    ensures |s| as real * lo <= Seqs.Sum(s) <= |s| as real * hi
  {
    if s != [] {
      SumBetween(s[..|s| - 1], lo, hi);
      assert |s| as real * lo == (|s| - 1) as real * lo + lo;
      assert |s| as real * hi == (|s| - 1) as real * hi + hi;
    }
  }
}
