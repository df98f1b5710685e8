// The historical conversion-table page: the chart rows normalised from the
// stored tables, the multi-year comparison merged by number of correct
// answers, the year toggle, the row-to-row variation and the summary cards.

module TabelaPage {
  import opened Wrappers
  import opened EnemConversion
  import Seqs

  // ---------------------------------------------------------------------
  // The stored data, as read by the page

  /** A stored row: older files name the columns `min`/`med`/`max`, newer
      ones `notaMin`/`notaMed`/`notaMax`, and any of them may be null. */
  datatype RawRow = RawRow(
    acertos: int,
    notaMin: Option<real>, min: Option<real>,
    notaMed: Option<real>, med: Option<real>,
    notaMax: Option<real>, max: Option<real>)

  datatype RawArea = RawArea(tabela: Option<seq<RawRow>>)

  datatype RawYear = RawYear(areas: Option<map<Area, RawArea>>)

  /** The historical file, keyed by year. */
  type Historico = map<int, RawYear>

  /** `DADOS_HISTORICOS[ano]?.areas?.[area]?.tabela || []`: any missing
      link gives the empty table, never an error. */
  function TabelaDoAno(dados: Historico, ano: int, area: Area): (r: seq<RawRow>)
    ensures ano !in dados || dados[ano].areas.None? ==> r == []
    ensures ano in dados && dados[ano].areas.Some? && area !in dados[ano].areas.value ==> r == []
    ensures ano in dados && dados[ano].areas.Some? && area in dados[ano].areas.value ==>
      r == dados[ano].areas.value[area].tabela.GetOr([])
  {
    if ano !in dados then []
    else match dados[ano].areas
      case None => []
      case Some(areas) =>
        if area !in areas then [] else areas[area].tabela.GetOr([])
  }

  /** `a ?? b ?? 0`. */
  function Coalesce(a: Option<real>, b: Option<real>): (r: real)
    ensures a.Some? ==> r == a.value
    ensures a.None? && b.Some? ==> r == b.value
    ensures a.None? && b.None? ==> r == 0.0
  {
    a.GetOr(b.GetOr(0.0))
  }

  // ---------------------------------------------------------------------
  // Chart rows

  datatype ChartRow = ChartRow(acertos: int, min: real, med: real, max: real, amplitude: real)

  /** One entry of `dadosGrafico`. */
  function Normalizar(row: RawRow): (r: ChartRow)
    ensures r.acertos == row.acertos
    ensures r.min == Coalesce(row.notaMin, row.min)
    ensures r.med == Coalesce(row.notaMed, row.med)
    ensures r.max == Coalesce(row.notaMax, row.max)
    ensures r.amplitude == r.max - r.min
  {
    ChartRow(
      row.acertos,
      Coalesce(row.notaMin, row.min),
      Coalesce(row.notaMed, row.med),
      Coalesce(row.notaMax, row.max),
      Coalesce(row.notaMax, row.max) - Coalesce(row.notaMin, row.min))
  }

  /** `dadosGrafico`: the selected year's table, row by row. */
  function DadosGrafico(dados: Historico, ano: int, area: Area): (g: seq<ChartRow>)
    ensures |g| == |TabelaDoAno(dados, ano, area)|
    ensures forall i :: 0 <= i < |g| ==> g[i] == Normalizar(TabelaDoAno(dados, ano, area)[i])
  {
    var t := TabelaDoAno(dados, ano, area);
    seq(|t|, i requires 0 <= i < |t| => Normalizar(t[i]))
  }

  /** A row whose stored values are all null charts as zeros with no
      amplitude; a row with `notaMin` and `min` both present charts the
      `notaMin` value. */
  lemma NormalizarDefaults(row: RawRow)
    ensures row.notaMin.None? && row.min.None? && row.notaMax.None? && row.max.None? ==>
      Normalizar(row).min == 0.0 && Normalizar(row).max == 0.0 && Normalizar(row).amplitude == 0.0
    ensures row.notaMin.Some? ==> Normalizar(row).min == row.notaMin.value
  {
  }

  // ---------------------------------------------------------------------
  // Row-to-row variation

  /** `variacaoAnterior` of row `idx`: 0 for the first row, otherwise the
      percentage change of `med`. `None` where the previous `med` is 0 and
      the source divides by zero. */
  function Variacao(g: seq<ChartRow>, idx: nat): (r: Option<real>)
    requires idx < |g|
    ensures idx == 0 ==> r == Some(0.0)
    ensures idx > 0 ==> (r.None? <==> g[idx - 1].med == 0.0)
    ensures idx > 0 && r.Some? ==> r.value * g[idx - 1].med == (g[idx].med - g[idx - 1].med) * 100.0
  {
    if idx == 0 then Some(0.0)
    else
      var prev := g[idx - 1].med;
      if prev == 0.0 then None
      else
        var q := (g[idx].med - prev) / prev;
        assert q * prev == g[idx].med - prev;
        Some(q * 100.0)
  }

  /** With a positive previous `med`, the variation is positive exactly
      when `med` grew, and 0 exactly when it stayed. */
  lemma VariacaoSign(g: seq<ChartRow>, idx: nat)
    requires 0 < idx < |g|
    requires g[idx - 1].med > 0.0
    ensures Variacao(g, idx).Some?
    ensures Variacao(g, idx).value > 0.0 <==> g[idx].med > g[idx - 1].med
    ensures Variacao(g, idx).value == 0.0 <==> g[idx].med == g[idx - 1].med
  {
    var v := Variacao(g, idx).value;
    var prev := g[idx - 1].med;
    assert v * prev == (g[idx].med - prev) * 100.0;
    if v > 0.0 {
      assert v * prev > 0.0;
    } else if v < 0.0 {
      assert v * prev < 0.0 by {
        assert (-v) * prev > 0.0;
      }
    }
  }

  // ---------------------------------------------------------------------
  // Summary cards and the amplitude badge

  /** `Math.max(...xs)` of a non-empty list. */
  function MaxOf(xs: seq<real>): (m: real)
    requires |xs| > 0
    ensures m in xs
    ensures forall i :: 0 <= i < |xs| ==> xs[i] <= m
  {
    if |xs| == 1 then xs[0]
    else
      var rest := MaxOf(xs[1..]);
      if xs[0] >= rest then xs[0] else rest
  }

  datatype Resumo = Resumo(notaMinima: real, notaMedia: real, notaMaxima: real, amplitudeMaxima: real)

  /** The four cards; `None` shows '-' on each card when the table is empty. */
  function Cards(g: seq<ChartRow>): (r: Option<Resumo>)
    ensures r.None? <==> |g| == 0
    ensures r.Some? ==>
      && r.value.notaMinima == g[0].min
      && r.value.notaMedia == g[|g| / 2].med
      && r.value.notaMaxima == g[|g| - 1].max
    ensures r.Some? ==>
      && (exists i :: 0 <= i < |g| && g[i].amplitude == r.value.amplitudeMaxima)
      && (forall i :: 0 <= i < |g| ==> g[i].amplitude <= r.value.amplitudeMaxima)
  {
    if |g| == 0 then None
    else
      var amps := seq(|g|, i requires 0 <= i < |g| => g[i].amplitude);
      var m := MaxOf(amps);
      assert forall i :: 0 <= i < |g| ==> amps[i] == g[i].amplitude;
      Some(Resumo(g[0].min, g[|g| / 2].med, g[|g| - 1].max, m))
  }

  datatype AmplitudeBadge = Destructive | Secondary | Outline

  function BadgeDe(amplitude: real): (b: AmplitudeBadge)
    ensures b == Destructive <==> amplitude > 100.0
    ensures b == Secondary <==> 50.0 < amplitude <= 100.0
    ensures b == Outline <==> amplitude <= 50.0
  {
    if amplitude > 100.0 then Destructive
    else if amplitude > 50.0 then Secondary
    else Outline
  }

  // ---------------------------------------------------------------------
  // The multi-year comparison

  /** One entry of `dadosComparacaoMed`: `{acertos, [ano]: med}`. */
  datatype YearPoint = YearPoint(acertos: int, ano: int, med: real)

  /** One merged row: `acertos` and one key per year that has this row. */
  datatype MergedRow = MergedRow(acertos: int, valores: map<int, real>)

  function Ponto(row: RawRow, ano: int): YearPoint {
    YearPoint(row.acertos, ano, Coalesce(row.notaMed, row.med))
  }

  /** The points of one selected year, in table order. */
  function PontosDoAno(dados: Historico, ano: int, area: Area): (ps: seq<YearPoint>)
    ensures |ps| == |TabelaDoAno(dados, ano, area)|
    ensures forall i :: 0 <= i < |ps| ==> ps[i] == Ponto(TabelaDoAno(dados, ano, area)[i], ano)
  {
    var t := TabelaDoAno(dados, ano, area);
    seq(|t|, i requires 0 <= i < |t| => Ponto(t[i], ano))
  }

  /** `dadosComparacaoMed`: one list of points per selected year. */
  function PorAno(dados: Historico, anos: seq<int>, area: Area): (r: seq<seq<YearPoint>>)
    ensures |r| == |anos|
    ensures forall i :: 0 <= i < |anos| ==> r[i] == PontosDoAno(dados, anos[i], area)
  {
    seq(|anos|, i requires 0 <= i < |anos| => PontosDoAno(dados, anos[i], area))
  }

  /** The lists one after the other, in order. */
  function Flatten<T>(ss: seq<seq<T>>): seq<T> {
    if ss == [] then [] else Flatten(ss[..|ss| - 1]) + ss[|ss| - 1]
  }

  lemma {:induction false} FlattenMember<T>(ss: seq<seq<T>>, x: T)
    ensures x in Flatten(ss) <==> exists i :: 0 <= i < |ss| && x in ss[i]
  {
    if ss != [] {
      var init := ss[..|ss| - 1];
      FlattenMember(init, x);
      assert forall i :: 0 <= i < |init| ==> init[i] == ss[i];
    }
  }

  /** One step of the merge: `Object.assign` onto the row with the same
      `acertos`, or `push` a new row. */
  function Absorb(acc: seq<MergedRow>, p: YearPoint): (r: seq<MergedRow>)
  {
    match Seqs.FindIndex(acc, (m: MergedRow) => m.acertos == p.acertos)
    case Some(i) => acc[i := acc[i].(valores := acc[i].valores[p.ano := p.med])]
    case None => acc + [MergedRow(p.acertos, map[p.ano := p.med])]
  }

  /** The `reduce`, over the points of every year in selection order. */
  function MergeAll(pts: seq<YearPoint>): seq<MergedRow> {
    if pts == [] then [] else Absorb(MergeAll(pts[..|pts| - 1]), pts[|pts| - 1])
  }

  /** `dadosComparacaoMerged` for the page's data and selection. */
  function Merged(dados: Historico, anos: seq<int>, area: Area): seq<MergedRow> {
    MergeAll(Flatten(PorAno(dados, anos, area)))
  }

  /** One `forEach` step: `find` the row with the same `acertos` and
      `Object.assign` the year onto it, or `push` a new row. */
  method Absorver(acc: seq<MergedRow>, row: YearPoint) returns (r: seq<MergedRow>)
    ensures r == Absorb(acc, row)
  {
    var k := 0;
    while k < |acc| && acc[k].acertos != row.acertos
      invariant 0 <= k <= |acc|
      invariant forall m :: 0 <= m < k ==> acc[m].acertos != row.acertos
    {
      k := k + 1;
    }
    if k < |acc| {
      assert Seqs.FindIndex(acc, (m: MergedRow) => m.acertos == row.acertos) == Some(k);
      r := acc[k := acc[k].(valores := acc[k].valores[row.ano := row.med])];
    } else {
      r := acc + [MergedRow(row.acertos, map[row.ano := row.med])];
    }
  }

  lemma MergeAllSnoc(pts: seq<YearPoint>, p: YearPoint)
    ensures MergeAll(pts + [p]) == Absorb(MergeAll(pts), p)
  {
    assert (pts + [p])[..|pts|] == pts;
  }

  lemma FlattenSnoc<T>(ss: seq<seq<T>>, y: nat)
    requires y < |ss|
    ensures Flatten(ss[..y + 1]) == Flatten(ss[..y]) + ss[y]
  {
    assert ss[..y + 1][..y] == ss[..y];
  }

  /** The inner `forEach` over one year's points, continuing a merge of the
      points `anteriores` already scanned. */
  method AbsorverAno(acc: seq<MergedRow>, ghost anteriores: seq<YearPoint>, anoDados: seq<YearPoint>)
    returns (r: seq<MergedRow>)
    requires acc == MergeAll(anteriores)
    ensures r == MergeAll(anteriores + anoDados)
  {
    r := acc;
    assert anteriores + anoDados[..0] == anteriores;
    var j := 0;
    while j < |anoDados|
      invariant 0 <= j <= |anoDados|
      invariant r == MergeAll(anteriores + anoDados[..j])
    {
      var row := anoDados[j];
      MergeAllSnoc(anteriores + anoDados[..j], row);
      assert anteriores + anoDados[..j + 1] == (anteriores + anoDados[..j]) + [row];
      r := Absorver(r, row);
      j := j + 1;
    }
    assert anoDados[..j] == anoDados;
  }

  /** The `reduce` with its `forEach` and `find`, mutating the accumulator:
      found rows are updated in place, new ones pushed. */
  method MergeComparacao(porAno: seq<seq<YearPoint>>) returns (acc: seq<MergedRow>)
    ensures acc == MergeAll(Flatten(porAno))
  {
    acc := [];
    var y := 0;
    while y < |porAno|
      invariant 0 <= y <= |porAno|
      invariant acc == MergeAll(Flatten(porAno[..y]))
    {
      acc := AbsorverAno(acc, Flatten(porAno[..y]), porAno[y]);
      FlattenSnoc(porAno, y);
      y := y + 1;
    }
    assert porAno[..y] == porAno;
  }

  // ---------------------------------------------------------------------
  // Properties of the merge

  function Keys(rows: seq<MergedRow>): (ks: seq<int>)
    ensures |ks| == |rows|
    ensures forall i :: 0 <= i < |rows| ==> ks[i] == rows[i].acertos
  {
    seq(|rows|, i requires 0 <= i < |rows| => rows[i].acertos)
  }

  function AcertosOf(pts: seq<YearPoint>): (ks: seq<int>)
    ensures |ks| == |pts|
    ensures forall i :: 0 <= i < |pts| ==> ks[i] == pts[i].acertos
  {
    seq(|pts|, i requires 0 <= i < |pts| => pts[i].acertos)
  }

  /** The distinct elements of `xs`, each at its first appearance. */
  function Dedup(xs: seq<int>): (d: seq<int>)
    ensures forall x :: x in d <==> x in xs
  {
    if xs == [] then []
    else
      var init := Dedup(xs[..|xs| - 1]);
      assert forall x :: x in xs <==> x in xs[..|xs| - 1] || x == xs[|xs| - 1];
      if xs[|xs| - 1] in init then init else init + [xs[|xs| - 1]]
  }

  predicate Distinct(xs: seq<int>) {
    forall i, j :: 0 <= i < j < |xs| ==> xs[i] != xs[j]
  }

  lemma {:induction false} DedupDistinct(xs: seq<int>)
    ensures Distinct(Dedup(xs))
  {
    if xs != [] {
      DedupDistinct(xs[..|xs| - 1]);
    }
  }

  /** How one step changes the keys: a new `acertos` is appended at the end,
      a known one changes nothing. */
  lemma AbsorbKeys(acc: seq<MergedRow>, p: YearPoint)
    ensures p.acertos in Keys(acc) ==> Keys(Absorb(acc, p)) == Keys(acc)
    ensures p.acertos !in Keys(acc) ==> Keys(Absorb(acc, p)) == Keys(acc) + [p.acertos]
  {
    var f := Seqs.FindIndex(acc, (m: MergedRow) => m.acertos == p.acertos);
    if f.None? {
      assert p.acertos !in Keys(acc);
      assert Keys(acc + [MergedRow(p.acertos, map[p.ano := p.med])]) == Keys(acc) + [p.acertos];
    } else {
      assert Keys(Absorb(acc, p)) == Keys(acc);
    }
  }

  /** The merged rows are keyed by the distinct `acertos` in order of first
      appearance, scanning the years in selection order. */
  lemma {:induction false} MergeKeys(pts: seq<YearPoint>)
    ensures Keys(MergeAll(pts)) == Dedup(AcertosOf(pts))
  {
    if pts != [] {
      var init := pts[..|pts| - 1];
      MergeKeys(init);
      assert AcertosOf(pts)[..|pts| - 1] == AcertosOf(init);
      AbsorbKeys(MergeAll(init), pts[|pts| - 1]);
    }
  }

  /** Exactly one merged row per distinct `acertos`. */
  lemma MergeKeysDistinct(pts: seq<YearPoint>)
    ensures Distinct(Keys(MergeAll(pts)))
    ensures forall k :: k in Keys(MergeAll(pts)) <==> k in AcertosOf(pts)
  {
    MergeKeys(pts);
    DedupDistinct(AcertosOf(pts));
  }

  /** The year keys of `acertos` `k`: every point for `k`, in order, with a
      later point for the same year overwriting an earlier one. */
  function ValoresFor(pts: seq<YearPoint>, k: int): map<int, real> {
    if pts == [] then map[]
    else
      var m := ValoresFor(pts[..|pts| - 1], k);
      var p := pts[|pts| - 1];
      if p.acertos == k then m[p.ano := p.med] else m
  }

  lemma {:induction false} ValoresForAbsent(pts: seq<YearPoint>, k: int)
    requires k !in AcertosOf(pts)
    ensures ValoresFor(pts, k) == map[]
  {
    if pts != [] {
      assert AcertosOf(pts)[..|pts| - 1] == AcertosOf(pts[..|pts| - 1]);
      ValoresForAbsent(pts[..|pts| - 1], k);
    }
  }

  /** Every merged row carries exactly the year keys its `acertos` collected. */
  lemma {:induction false} MergeValores(pts: seq<YearPoint>)
    ensures forall i :: 0 <= i < |MergeAll(pts)| ==> MergeAll(pts)[i].valores == ValoresFor(pts, MergeAll(pts)[i].acertos)
  {
    if pts != [] {
      var init := pts[..|pts| - 1];
      var p := pts[|pts| - 1];
      MergeValores(init);
      var acc := MergeAll(init);
      var r := MergeAll(pts);
      assert r == Absorb(acc, p);
      MergeKeysDistinct(init);
      var f := Seqs.FindIndex(acc, (m: MergedRow) => m.acertos == p.acertos);
      if f.None? {
        assert p.acertos !in Keys(acc);
        ValoresForAbsent(init, p.acertos);
        assert r == acc + [MergedRow(p.acertos, map[p.ano := p.med])];
        forall i | 0 <= i < |r|
          ensures r[i].valores == ValoresFor(pts, r[i].acertos)
        {
          if i < |acc| {
            assert r[i] == acc[i] && acc[i].acertos != p.acertos;
          }
        }
      } else {
        var k := f.value;
        forall i | 0 <= i < |r|
          ensures r[i].valores == ValoresFor(pts, r[i].acertos)
        {
          if i != k {
            assert Keys(acc)[i] != Keys(acc)[k];
            assert r[i] == acc[i];
          }
        }
      }
    }
  }

  /** A year key is present in `ValoresFor(pts, k)` exactly when some point
      carries `k` and that year; its value is the last such point's. */
  lemma {:induction false} ValoresForMeaning(pts: seq<YearPoint>, k: int, y: int)
    ensures y in ValoresFor(pts, k) <==> exists j :: 0 <= j < |pts| && pts[j].acertos == k && pts[j].ano == y
    ensures forall j :: 0 <= j < |pts| && pts[j].acertos == k && pts[j].ano == y &&
                        (forall j' :: j < j' < |pts| ==> !(pts[j'].acertos == k && pts[j'].ano == y)) ==>
              y in ValoresFor(pts, k) && ValoresFor(pts, k)[y] == pts[j].med
  {
    if pts != [] {
      var init := pts[..|pts| - 1];
      ValoresForMeaning(init, k, y);
      assert forall j :: 0 <= j < |init| ==> init[j] == pts[j];
    }
  }

  /** A scanned point comes from the table of a selected year. */
  lemma PontoDaTabela(dados: Historico, anos: seq<int>, area: Area, q: YearPoint)
    requires q in Flatten(PorAno(dados, anos, area))
    ensures q.ano in anos
    ensures exists t :: 0 <= t < |TabelaDoAno(dados, q.ano, area)| && TabelaDoAno(dados, q.ano, area)[t].acertos == q.acertos
  {
    var porAno := PorAno(dados, anos, area);
    FlattenMember(porAno, q);
    var a :| 0 <= a < |porAno| && q in porAno[a];
    var t :| 0 <= t < |porAno[a]| && porAno[a][t] == q;
    assert anos[a] == q.ano;
    assert TabelaDoAno(dados, q.ano, area)[t].acertos == q.acertos;
  }

  /** Every row of a selected year's table is scanned as a point. */
  lemma TabelaNoPonto(dados: Historico, anos: seq<int>, area: Area, a: nat, t: nat)
    requires a < |anos| && t < |TabelaDoAno(dados, anos[a], area)|
    ensures var pts := Flatten(PorAno(dados, anos, area));
            exists j :: 0 <= j < |pts| && pts[j].acertos == TabelaDoAno(dados, anos[a], area)[t].acertos && pts[j].ano == anos[a]
  {
    var porAno := PorAno(dados, anos, area);
    var pts := Flatten(porAno);
    var q := porAno[a][t];
    FlattenMember(porAno, q);
    var j :| 0 <= j < |pts| && pts[j] == q;
  }

  /** For the page's own data: the merged row for `acertos` `k` has a key
      for year `y` exactly when `y` is selected and its table has a row `k`. */
  lemma MergedYearKeys(dados: Historico, anos: seq<int>, area: Area, i: nat, y: int)
    requires i < |Merged(dados, anos, area)|
    ensures var row := Merged(dados, anos, area)[i];
            y in row.valores <==>
              y in anos && exists t :: 0 <= t < |TabelaDoAno(dados, y, area)| && TabelaDoAno(dados, y, area)[t].acertos == row.acertos
  {
    var pts := Flatten(PorAno(dados, anos, area));
    var row := MergeAll(pts)[i];
    MergeValores(pts);
    ValoresForMeaning(pts, row.acertos, y);
    if y in row.valores {
      var j :| 0 <= j < |pts| && pts[j].acertos == row.acertos && pts[j].ano == y;
      PontoDaTabela(dados, anos, area, pts[j]);
    }
    if y in anos && exists t :: 0 <= t < |TabelaDoAno(dados, y, area)| && TabelaDoAno(dados, y, area)[t].acertos == row.acertos {
      var a :| 0 <= a < |anos| && anos[a] == y;
      var t :| 0 <= t < |TabelaDoAno(dados, y, area)| && TabelaDoAno(dados, y, area)[t].acertos == row.acertos;
      TabelaNoPonto(dados, anos, area, a, t);
    }
  }

  // ---------------------------------------------------------------------
  // The year toggle

  predicate NoDup(xs: seq<int>) {
    forall i, j :: 0 <= i < j < |xs| ==> xs[i] != xs[j]
  }

  /** A badge click: a selected year is removed unless it is the only one;
      an unselected year is appended. */
  function Toggle(sel: seq<int>, y: int): (r: seq<int>)
    ensures y in sel && |sel| > 1 ==> y !in r && r == Seqs.Filter(sel, (a: int) => a != y)
    ensures y in sel && |sel| <= 1 ==> r == sel
    ensures y !in sel ==> r == sel + [y]
    ensures forall x :: x != y ==> (x in r <==> x in sel)
  {
    if y in sel then
      if |sel| > 1 then Seqs.Filter(sel, (a: int) => a != y) else sel
    else sel + [y]
  }

  /** The selection is never emptied, as long as it holds no year twice
      (which `ToggleNoDup` keeps). */
  lemma ToggleNonEmpty(sel: seq<int>, y: int)
    requires |sel| > 0 && NoDup(sel)
    ensures |Toggle(sel, y)| > 0
  {
    if y in sel && |sel| > 1 {
      var x := if sel[0] != y then sel[0] else sel[1];
      assert x in sel && x != y;
      assert x in Toggle(sel, y);
    }
  }

  /** The selection never holds a year twice. */
  lemma {:induction false} ToggleNoDup(sel: seq<int>, y: int)
    requires NoDup(sel)
    ensures NoDup(Toggle(sel, y))
  {
    if y in sel && |sel| > 1 {
      FilterNoDup(sel, (a: int) => a != y);
    }
  }

  lemma {:induction false} FilterNoDup(s: seq<int>, p: int -> bool)
    requires NoDup(s)
    ensures NoDup(Seqs.Filter(s, p))
  {
    if s != [] {
      FilterNoDup(s[1..], p);
      assert s[0] !in s[1..];
    }
  }

  // ---------------------------------------------------------------------
  // Page state

  /** The page's state: the selected year and area, and the years compared. */
  class TabelaView {
    var ano: int
    var area: Area
    var anosComparacao: seq<int>

    predicate Valid()
      reads this
    {
      |anosComparacao| > 0 && NoDup(anosComparacao)
    }

    constructor ()
      ensures ano == 2024 && area == MT && anosComparacao == [2023, 2024]
      ensures Valid()
    {
      ano := 2024;
      area := MT;
      anosComparacao := [2023, 2024];
    }

    method SetAno(a: int)
      modifies this
      ensures ano == a && area == old(area) && anosComparacao == old(anosComparacao)
    {
      ano := a;
    }

    method SetArea(a: Area)
      modifies this
      ensures area == a && ano == old(ano) && anosComparacao == old(anosComparacao)
    {
      area := a;
    }

    /** A click on the badge of year `y`. */
    method ToggleAno(y: int)
      requires Valid()
      modifies this
      ensures anosComparacao == Toggle(old(anosComparacao), y)
      ensures ano == old(ano) && area == old(area)
      ensures Valid()
    {
      ToggleNonEmpty(anosComparacao, y);
      ToggleNoDup(anosComparacao, y);
      anosComparacao := Toggle(anosComparacao, y);
    }

    function Grafico(dados: Historico): seq<ChartRow>
      reads this
    {
      DadosGrafico(dados, ano, area)
    }

    function Comparacao(dados: Historico): seq<MergedRow>
      reads this
    {
      Merged(dados, anosComparacao, area)
    }
  }
}
