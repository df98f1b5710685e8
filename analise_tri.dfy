// The item difficulty analysis page: simulated 3PL item parameters, the
// booklet-colour filter, the easiest and hardest items, the five difficulty
// bands and the summary cards.

module AnaliseTri {
  import opened Wrappers
  import opened EnemConversion
  import opened Strings
  import EnemData2024
  import Seqs

  /** The booklet colours, in the order of `Object.keys(CORES_CADERNO)`. */
  datatype Caderno = Azul | Amarelo | Cinza | Rosa

  function Cadernos(): (r: seq<Caderno>)
    ensures |r| == 4
    ensures forall c: Caderno :: c in r
  {
    var r := [Azul, Amarelo, Cinza, Rosa];
    assert forall c: Caderno :: (c.Azul? || c.Amarelo? || c.Cinza? || c.Rosa?) ==> c in r;
    r
  }

  /** The four `Math.random()` readings one simulated item consumes, in the
      order the source draws them. */
  datatype Sorteio = Sorteio(a: real, b: real, c: real, caderno: real)

  predicate SorteioValido(r: Sorteio) {
    0.0 <= r.a < 1.0 && 0.0 <= r.b < 1.0 && 0.0 <= r.c < 1.0 && 0.0 <= r.caderno < 1.0
  }

  datatype ItemTri = ItemTri(cod: string, posicao: nat, a: real, b: real, c: real, acertos: int, caderno: Caderno)

  const NItens: nat := 45

  /** `${area}_Q${String(i + 1).padStart(3, '0')}`: the area's code, `_Q`,
      and digits denoting `i + 1`, three of them below 999. */
  function Cod(area: Area, i: nat): (cod: string)
    ensures |cod| >= 7 && cod[..4] == AreaCode(area) + "_Q"
    ensures i < 999 ==> |cod| == 7
    ensures forall k :: 4 <= k < |cod| ==> IsDigit(cod[k])
    ensures DigitsValue(cod[4..]) == i + 1
  {
    var n := PadStart(NatToString(i + 1), 3, '0');
    assert i < 999 ==> |NatToString(i + 1)| <= 3 by {
      if i < 999 {
        NatToStringShort(i + 1);
      }
    }
    PadStartZerosValue(NatToString(i + 1), 3);
    var cod := AreaCode(area) + "_Q" + n;
    assert cod[4..] == n;
    cod
  }

  lemma {:induction false} NatToStringShort(n: nat)
    requires n < 1000
    ensures |NatToString(n)| <= 3
  {
    if n >= 10 {
      NatToStringShort(n / 10);
    }
  }

  /** `(i / nItens) * 4 - 2`. */
  function DificuldadeBase(i: nat): real {
    (i as real / NItens as real) * 4.0 - 2.0
  }

  /** `Object.keys(CORES_CADERNO)[Math.floor(r * 4)]`. */
  function CadernoSorteado(r: real): Caderno
    requires 0.0 <= r < 1.0
  {
    var k := (r * 4.0).Floor;
    assert 0 <= k < 4;
    Cadernos()[k]
  }

  /** The object pushed for position `i`. */
  function Item(area: Area, i: nat, r: Sorteio): ItemTri
    requires SorteioValido(r)
  {
    ItemTri(
      Cod(area, i),
      i + 1,
      0.8 + r.a * 0.6,
      DificuldadeBase(i) + (r.b - 0.5) * 0.5,
      0.15 + r.c * 0.1,
      ((1.0 - i as real / NItens as real) * 100.0).Floor,
      CadernoSorteado(r.caderno))
  }

  /** The items after the first `n` turns of the loop. */
  function GeradosAte(area: Area, sorteios: seq<Sorteio>, n: nat): (g: seq<ItemTri>)
    requires n <= |sorteios|
    requires forall k :: 0 <= k < |sorteios| ==> SorteioValido(sorteios[k])
    ensures |g| == n
  {
    if n == 0 then [] else GeradosAte(area, sorteios, n - 1) + [Item(area, n - 1, sorteios[n - 1])]
  }

  /** Position `i` holds the item built from the `i`-th draw, whatever later
      turns append. */
  lemma {:induction false} GeradosAteAt(area: Area, sorteios: seq<Sorteio>, n: nat, i: nat)
    requires n <= |sorteios|
    requires forall k :: 0 <= k < |sorteios| ==> SorteioValido(sorteios[k])
    requires i < n
    ensures GeradosAte(area, sorteios, n)[i] == Item(area, i, sorteios[i])
  {
    var anteriores := GeradosAte(area, sorteios, n - 1);
    var x := Item(area, n - 1, sorteios[n - 1]);
    assert GeradosAte(area, sorteios, n) == anteriores + [x];
    if i < n - 1 {
      GeradosAteAt(area, sorteios, n - 1, i);
      assert (anteriores + [x])[i] == anteriores[i];
    } else {
      assert (anteriores + [x])[i] == x;
    }
  }

  /** The 45 items of the loop, before sorting. */
  function Gerados(area: Area, sorteios: seq<Sorteio>): (g: seq<ItemTri>)
    requires |sorteios| == NItens
    requires forall k :: 0 <= k < |sorteios| ==> SorteioValido(sorteios[k])
    ensures |g| == NItens
  {
    GeradosAte(area, sorteios, NItens)
  }

  // ---------------------------------------------------------------------
  // Sorting by difficulty

  /** The sort key: `a.b - b.b` sorts by `b`, `b.b - a.b` by `-b`. */
  function Key(x: ItemTri, desc: bool): real {
    if desc then -x.b else x.b
  }

  predicate SortedBy(s: seq<ItemTri>, desc: bool) {
    forall i, j :: 0 <= i < j < |s| ==> Key(s[i], desc) <= Key(s[j], desc)
  }

  /** A head no greater than anything in a sorted tail keeps it sorted. */
  lemma ConsSorted(h: ItemTri, t: seq<ItemTri>, desc: bool)
    requires SortedBy(t, desc)
    requires forall y :: y in t ==> Key(h, desc) <= Key(y, desc)
    ensures SortedBy([h] + t, desc)
  {
    var r := [h] + t;
    forall i, j | 0 <= i < j < |r|
      ensures Key(r[i], desc) <= Key(r[j], desc)
    {
      assert r[j] == t[j - 1];
      if i > 0 {
        assert r[i] == t[i - 1];
      }
    }
  }

  /** The head of a sorted list that `x` does not precede is no greater
      than anything the rest becomes after inserting `x`. */
  lemma InsertHeadBelow(x: ItemTri, s: seq<ItemTri>, rest: seq<ItemTri>, desc: bool)
    requires SortedBy(s, desc) && s != []
    requires Key(s[0], desc) < Key(x, desc)
    requires forall y :: y in rest <==> y in s[1..] || y == x
    ensures forall y :: y in rest ==> Key(s[0], desc) <= Key(y, desc)
  {
    forall y | y in rest
      ensures Key(s[0], desc) <= Key(y, desc)
    {
      if y != x {
        var j :| 0 <= j < |s[1..]| && s[1..][j] == y;
        assert s[j + 1] == y;
      }
    }
  }

  /** Inserts `x` before the first element whose key is not smaller, which
      keeps equal keys in their original order. */
  function Insert(x: ItemTri, s: seq<ItemTri>, desc: bool): (r: seq<ItemTri>)
    requires SortedBy(s, desc)
    ensures |r| == |s| + 1
    ensures forall y :: y in r <==> y in s || y == x
    ensures SortedBy(r, desc)
    ensures multiset(r) == multiset(s) + multiset{x}
  {
    if s == [] then [x]
    else if Key(x, desc) <= Key(s[0], desc) then
      ConsSorted(x, s, desc);
      [x] + s
    else
      var rest := Insert(x, s[1..], desc);
      assert s == [s[0]] + s[1..];
      InsertHeadBelow(x, s, rest, desc);
      ConsSorted(s[0], rest, desc);
      [s[0]] + rest
  }

  /** `sort` by key: an insertion sort, stable like the engine's. */
  function SortBy(s: seq<ItemTri>, desc: bool): (r: seq<ItemTri>)
    ensures |r| == |s|
    ensures forall y :: y in r <==> y in s
    ensures SortedBy(r, desc)
    ensures multiset(r) == multiset(s)
  {
    if s == [] then []
    else
      assert s == [s[0]] + s[1..];
      Insert(s[0], SortBy(s[1..], desc), desc)
  }

  /** The `for` loop of `SIMULAR_PARAMETROS_TRI`, pushing one item per
      position. */
  method GerarItens(area: Area, sorteios: seq<Sorteio>) returns (gerados: seq<ItemTri>)
    requires |sorteios| == NItens
    requires forall k :: 0 <= k < |sorteios| ==> SorteioValido(sorteios[k])
    ensures gerados == Gerados(area, sorteios)
  {
    gerados := [];
    var i := 0;
    while i < NItens
      invariant 0 <= i <= NItens
      invariant gerados == GeradosAte(area, sorteios, i)
    {
      gerados := gerados + [Item(area, i, sorteios[i])];
      i := i + 1;
    }
  }

  /** `SIMULAR_PARAMETROS_TRI(area)`: nothing when the area has no
      statistics, otherwise the 45 generated items sorted by difficulty.
      The random readings are the `sorteios`. */
  method SimularParametrosTri(dados: EnemData2024.Dados2024, area: Area, sorteios: seq<Sorteio>)
    returns (itens: seq<ItemTri>)
    requires |sorteios| == NItens
    requires forall k :: 0 <= k < |sorteios| ==> SorteioValido(sorteios[k])
    ensures EnemData2024.GetEstatisticas2024(dados, area).None? ==> itens == []
    ensures EnemData2024.GetEstatisticas2024(dados, area).Some? ==> itens == SortBy(Gerados(area, sorteios), false)
  {
    var stats := EnemData2024.GetEstatisticas2024(dados, area);
    if stats.None? {
      return [];
    }
    var gerados := GerarItens(area, sorteios);
    itens := SortBy(gerados, false);
  }

  /** Position `i` of the loop gets code `area_Qnnn` with `nnn` the
      three-digit `i + 1`, position `i + 1`, and parameters in the ranges the
      source documents: `a` in [0.8, 1.4), `c` in [0.15, 0.25), and `b`
      within 0.25 of a base value in [-2, 2). */
  lemma ItemBounds(area: Area, i: nat, r: Sorteio)
    requires SorteioValido(r)
    requires i < NItens
    ensures var item := Item(area, i, r);
            && item.cod == AreaCode(area) + "_Q" + PadStart(NatToString(i + 1), 3, '0')
            && item.posicao == i + 1
            && 0.8 <= item.a < 1.4
            && 0.15 <= item.c < 0.25
            && -0.25 <= item.b - DificuldadeBase(i) < 0.25
            && -2.0 <= DificuldadeBase(i) < 2.0
            && 2 <= item.acertos <= 100
  {
    var x := i as real / NItens as real;
    assert 0.0 <= x < 1.0;
    assert x <= 44.0 / 45.0;
    assert 2.0 < (1.0 - x) * 100.0 <= 100.0;
  }

  /** The ranges every simulated parameter falls in. */
  predicate NoIntervalo(x: ItemTri) {
    0.8 <= x.a < 1.4 && 0.15 <= x.c < 0.25 && -2.25 <= x.b < 2.25
  }

  lemma GeradoNoIntervalo(area: Area, sorteios: seq<Sorteio>, i: nat)
    requires |sorteios| == NItens
    requires forall k :: 0 <= k < |sorteios| ==> SorteioValido(sorteios[k])
    requires i < NItens
    ensures NoIntervalo(Gerados(area, sorteios)[i])
  {
    GeradosAteAt(area, sorteios, NItens, i);
    ItemBounds(area, i, sorteios[i]);
  }

  lemma GeradosNoIntervalo(area: Area, sorteios: seq<Sorteio>)
    requires |sorteios| == NItens
    requires forall k :: 0 <= k < |sorteios| ==> SorteioValido(sorteios[k])
    ensures forall x :: x in Gerados(area, sorteios) ==> NoIntervalo(x)
  {
    var g := Gerados(area, sorteios);
    forall x | x in g
      ensures NoIntervalo(x)
    {
      var i :| 0 <= i < |g| && g[i] == x;
      GeradoNoIntervalo(area, sorteios, i);
    }
  }

  /** The simulated list has 45 items, sorted ascending by `b`, and holds
      exactly the generated items; every one of them is in range. */
  lemma SimulatedItems(area: Area, sorteios: seq<Sorteio>)
    requires |sorteios| == NItens
    requires forall k :: 0 <= k < |sorteios| ==> SorteioValido(sorteios[k])
    ensures var itens := SortBy(Gerados(area, sorteios), false);
            && |itens| == NItens
            && (forall i, j :: 0 <= i < j < |itens| ==> itens[i].b <= itens[j].b)
            && multiset(itens) == multiset(Gerados(area, sorteios))
            && forall x :: x in itens ==> NoIntervalo(x)
  {
    var g := Gerados(area, sorteios);
    var itens := SortBy(g, false);
    GeradosNoIntervalo(area, sorteios);
    forall i, j | 0 <= i < j < |itens|
      ensures itens[i].b <= itens[j].b
    {
      assert Key(itens[i], false) <= Key(itens[j], false);
    }
  }

  // ---------------------------------------------------------------------
  // The booklet filter

  /** The filter's selection: `'todos'` or a booklet colour. */
  datatype FiltroCaderno = Todos | SoCaderno(caderno: Caderno)

  predicate DoCaderno(c: Caderno, x: ItemTri) {
    x.caderno == c
  }

  /** `itensFiltrados`. */
  function Filtrados(itens: seq<ItemTri>, filtro: FiltroCaderno): (r: seq<ItemTri>)
    ensures filtro.Todos? ==> r == itens
    ensures filtro.SoCaderno? ==> forall x :: x in r <==> x in itens && x.caderno == filtro.caderno
    ensures filtro.SoCaderno? ==> |r| == Seqs.Count(itens, x => DoCaderno(filtro.caderno, x))
  {
    match filtro
    case Todos => itens
    case SoCaderno(c) => Seqs.Filter(itens, x => DoCaderno(c, x))
  }

  /** The booklet filter keeps the items' order: filtering a concatenation
      filters each part in turn. */
  lemma FiltradosInOrder(a: seq<ItemTri>, b: seq<ItemTri>, filtro: FiltroCaderno)
    ensures Filtrados(a + b, filtro) == Filtrados(a, filtro) + Filtrados(b, filtro)
  {
    if filtro.SoCaderno? {
      Seqs.FilterConcat(a, b, x => DoCaderno(filtro.caderno, x));
    }
  }

  // ---------------------------------------------------------------------
  // Easiest and hardest items

  function Min(x: nat, y: nat): nat {
    if x <= y then x else y
  }

  lemma PrefixMultiset(s: seq<ItemTri>, k: nat)
    requires k <= |s|
    ensures multiset(s[..k]) <= multiset(s)
  {
    assert s == s[..k] + s[k..];
    assert multiset(s) == multiset(s[..k]) + multiset(s[k..]);
  }

  /** In a sorted sequence, whatever lies outside a prefix has a key no
      smaller than the prefix's. */
  lemma PrefixBelowRest(s: seq<ItemTri>, k: nat, desc: bool)
    requires SortedBy(s, desc) && k <= |s|
    ensures forall x, y :: x in s[..k] && y in s && y !in s[..k] ==> Key(x, desc) <= Key(y, desc)
  {
    forall x, y | x in s[..k] && y in s && y !in s[..k]
      ensures Key(x, desc) <= Key(y, desc)
    {
      var i :| 0 <= i < k && s[..k][i] == x;
      assert s == s[..k] + s[k..];
      assert y in s[k..];
      var j :| 0 <= j < |s| - k && s[k..][j] == y;
      assert s[k + j] == y;
    }
  }

  /** `[...itens].sort(by key).slice(0, 10)`: the sort works on a copy, so
      `itens` itself is untouched. */
  function Extremos(itens: seq<ItemTri>, desc: bool): (r: seq<ItemTri>)
    ensures |r| == Min(10, |itens|)
    ensures SortedBy(r, desc)
    ensures multiset(r) <= multiset(itens)
    ensures forall x, y :: x in r && y in itens && y !in r ==> Key(x, desc) <= Key(y, desc)
  {
    var s := SortBy(itens, desc);
    var k := Min(10, |itens|);
    PrefixMultiset(s, k);
    PrefixBelowRest(s, k, desc);
    s[..k]
  }

  /** `itensFaceis`. */
  function Faceis(itens: seq<ItemTri>): seq<ItemTri> {
    Extremos(itens, false)
  }

  /** `itensDificeis`. */
  function Dificeis(itens: seq<ItemTri>): seq<ItemTri> {
    Extremos(itens, true)
  }

  /** The easy list holds at most 10 of the items, ascending by `b`, and no
      item left out is easier than one listed. */
  lemma FaceisAreEasiest(itens: seq<ItemTri>)
    ensures |Faceis(itens)| <= 10 && multiset(Faceis(itens)) <= multiset(itens)
    ensures forall i, j :: 0 <= i < j < |Faceis(itens)| ==> Faceis(itens)[i].b <= Faceis(itens)[j].b
    ensures forall x, y :: x in Faceis(itens) && y in itens && y !in Faceis(itens) ==> x.b <= y.b
  {
  }

  /** The hard list holds at most 10 of the items, descending by `b`, and no
      item left out is harder than one listed. */
  lemma DificeisAreHardest(itens: seq<ItemTri>)
    ensures |Dificeis(itens)| <= 10 && multiset(Dificeis(itens)) <= multiset(itens)
    ensures forall i, j :: 0 <= i < j < |Dificeis(itens)| ==> Dificeis(itens)[i].b >= Dificeis(itens)[j].b
    ensures forall x, y :: x in Dificeis(itens) && y in itens && y !in Dificeis(itens) ==> x.b >= y.b
  {
    var d := Dificeis(itens);
    assert forall i, j :: 0 <= i < j < |d| ==> Key(d[i], true) <= Key(d[j], true);
  }

  // ---------------------------------------------------------------------
  // Difficulty bands and cards

  predicate MuitoFacil(x: ItemTri) { x.b < -1.5 }
  predicate Facil(x: ItemTri) { x.b >= -1.5 && x.b < -0.5 }
  predicate Medio(x: ItemTri) { x.b >= -0.5 && x.b < 0.5 }
  predicate Dificil(x: ItemTri) { x.b >= 0.5 && x.b < 1.5 }
  predicate MuitoDificil(x: ItemTri) { x.b >= 1.5 }

  /** The band predicates, in the order of `faixasDificuldade`. */
  predicate NaFaixa(k: nat, x: ItemTri) {
    if k == 0 then MuitoFacil(x)
    else if k == 1 then Facil(x)
    else if k == 2 then Medio(x)
    else if k == 3 then Dificil(x)
    else k == 4 && MuitoDificil(x)
  }

  datatype Faixa = Faixa(faixa: string, count: nat)

  /** `faixasDificuldade`. */
  function FaixasDificuldade(itens: seq<ItemTri>): (r: seq<Faixa>)
    ensures |r| == 5
    ensures forall k :: 0 <= k < 5 ==> r[k].count <= |itens|
  {
    [
      Faixa("Muito Fácil (b < -1.5)", Seqs.Count(itens, MuitoFacil)),
      Faixa("Fácil (-1.5 a -0.5)", Seqs.Count(itens, Facil)),
      Faixa("Médio (-0.5 a 0.5)", Seqs.Count(itens, Medio)),
      Faixa("Difícil (0.5 a 1.5)", Seqs.Count(itens, Dificil)),
      Faixa("Muito Difícil (b > 1.5)", Seqs.Count(itens, MuitoDificil))
    ]
  }

  /** Every item falls in exactly one band. */
  lemma ExactlyOneBand(x: ItemTri)
    ensures exists k :: 0 <= k < 5 && NaFaixa(k, x)
    ensures forall k, j :: 0 <= k < j < 5 ==> !(NaFaixa(k, x) && NaFaixa(j, x))
  {
    if x.b < -1.5 {
      assert NaFaixa(0, x);
    } else if x.b < -0.5 {
      assert NaFaixa(1, x);
    } else if x.b < 0.5 {
      assert NaFaixa(2, x);
    } else if x.b < 1.5 {
      assert NaFaixa(3, x);
    } else {
      assert NaFaixa(4, x);
    }
  }

  /** Band `k` counts exactly the items for which the `k`-th band predicate
      holds. */
  lemma FaixaCount(itens: seq<ItemTri>, k: nat)
    requires k < 5
    ensures FaixasDificuldade(itens)[k].count == Seqs.Count(itens, (x: ItemTri) => NaFaixa(k, x))
  {
    var p := (x: ItemTri) => NaFaixa(k, x);
    if k == 0 {
      Seqs.FilterSamePredicate(itens, MuitoFacil, p);
    } else if k == 1 {
      Seqs.FilterSamePredicate(itens, Facil, p);
    } else if k == 2 {
      Seqs.FilterSamePredicate(itens, Medio, p);
    } else if k == 3 {
      Seqs.FilterSamePredicate(itens, Dificil, p);
    } else {
      Seqs.FilterSamePredicate(itens, MuitoDificil, p);
    }
  }

  function TotalFaixas(f: seq<Faixa>): nat
    requires |f| == 5
  {
    f[0].count + f[1].count + f[2].count + f[3].count + f[4].count
  }

  /** The band counts add up to the number of items. */
  lemma {:induction false} BandsPartition(itens: seq<ItemTri>)
    ensures TotalFaixas(FaixasDificuldade(itens)) == |itens|
  {
    if itens != [] {
      BandsPartition(itens[1..]);
      ExactlyOneBand(itens[0]);
    }
  }

  /** The "Itens Fáceis" card: `b < -0.5`. */
  function CardFaceis(itens: seq<ItemTri>): nat {
    Seqs.Count(itens, (x: ItemTri) => x.b < -0.5)
  }

  /** The "Itens Difíceis" card: `b > 0.5`. */
  function CardDificeis(itens: seq<ItemTri>): nat {
    Seqs.Count(itens, (x: ItemTri) => x.b > 0.5)
  }

  /** The easy card counts the first two bands. */
  lemma CardFaceisIsFirstTwoBands(itens: seq<ItemTri>)
    ensures CardFaceis(itens) == FaixasDificuldade(itens)[0].count + FaixasDificuldade(itens)[1].count
  {
    Seqs.CountDisjointUnion(itens, MuitoFacil, Facil, (x: ItemTri) => x.b < -0.5);
  }

  /** The hard card leaves out the items with `b == 0.5` exactly, which the
      "Difícil" band counts. */
  lemma CardDificeisMissesBoundary(itens: seq<ItemTri>)
    ensures CardDificeis(itens) + Seqs.Count(itens, (x: ItemTri) => x.b == 0.5)
         == FaixasDificuldade(itens)[3].count + FaixasDificuldade(itens)[4].count
  {
    var acima := (x: ItemTri) => x.b > 0.5;
    var igual := (x: ItemTri) => x.b == 0.5;
    var desde := (x: ItemTri) => x.b >= 0.5;
    Seqs.CountDisjointUnion(itens, acima, igual, desde);
    Seqs.CountDisjointUnion(itens, Dificil, MuitoDificil, desde);
  }

  /** A concrete item at `b = 0.5`: in the "Difícil" band, not on the card. */
  lemma BoundaryItemExample(x: ItemTri)
    requires x.b == 0.5
    ensures FaixasDificuldade([x])[3].count == 1
    ensures CardDificeis([x]) == 0
  {
    assert [x][1..] == [];
  }
}
