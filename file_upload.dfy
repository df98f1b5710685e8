// The response-matrix validator run on an uploaded file: errors for an
// empty matrix and for non-binary cells among the first 100 rows, warnings
// for a small sample and for zero-variance items, and a bounded preview.

module FileUpload {
  import opened Strings
  import opened Wrappers
  import Seqs

  const LinhasVerificadas: nat := 100
  const AmostraMinima: nat := 10
  const ItensListados: nat := 5
  const ColunasPreview: nat := 10
  const LinhasPreview: nat := 5

  datatype Erro = ArquivoVazio | NaoBinarios(quantidade: nat)

  /** `VarianciaZero(shown, mais)`: the first columns found (1-based) and
      whether more were found than are shown. */
  datatype Aviso = AmostraPequena(candidatos: nat) | VarianciaZero(itens: seq<nat>, mais: bool)

  datatype PreviewRow = PreviewRow(rotulo: string, valores: seq<real>)

  datatype Preview = Preview(headers: seq<string>, rows: seq<PreviewRow>)

  datatype ValidationResult = ValidationResult(valido: bool, erros: seq<Erro>, avisos: seq<Aviso>, preview: Preview)

  // ---------------------------------------------------------------------
  // Messages

  function TextoErro(e: Erro): string {
    match e
    case ArquivoVazio => "O arquivo está vazio"
    case NaoBinarios(n) => "Dados não binários detectados: " + NatToString(n) + " valores diferentes de 0/1"
  }

  /** The message of an error determines the error: the two kinds have
      different texts and the count can be read back from the second. */
  lemma TextoErroInjective(e1: Erro, e2: Erro)
    requires TextoErro(e1) == TextoErro(e2)
    ensures e1 == e2
  {
    TextoErroInicial(e1);
    TextoErroInicial(e2);
    if e1.NaoBinarios? && e2.NaoBinarios? {
      Strings.MiddleUnique("Dados não binários detectados: ", NatToString(e1.quantidade),
        NatToString(e2.quantidade), " valores diferentes de 0/1");
    }
  }

  lemma TextoErroInicial(e: Erro)
    ensures |TextoErro(e)| > 0 && TextoErro(e)[0] == if e.ArquivoVazio? then 'O' else 'D'
  {
    if e.NaoBinarios? {
      var p := "Dados não binários detectados: ";
      var w := NatToString(e.quantidade) + " valores diferentes de 0/1";
      assert TextoErro(e) == p + w;
      assert (p + w)[0] == p[0];
    }
  }

  /** Each number rendered in decimal, in order. */
  function NatsToStrings(xs: seq<nat>): (r: seq<string>)
    ensures |r| == |xs|
    ensures forall i :: 0 <= i < |xs| ==> r[i] == NatToString(xs[i])
  {
    if xs == [] then [] else [NatToString(xs[0])] + NatsToStrings(xs[1..])
  }

  function TextoAviso(a: Aviso): string {
    match a
    case AmostraPequena(n) =>
      "Amostra pequena: apenas " + NatToString(n) + " candidatos. Recomendado: mínimo 100."
    case VarianciaZero(itens, mais) =>
      "Itens com variância zero " + "(todos acertam/erram): #" + Join(NatsToStrings(itens), ", ") + (if mais then "..." else "")
  }

  /** The small-sample and zero-variance warnings have different texts,
      and the small-sample text gives back the number of candidates. */
  lemma TextoAvisoDistinguishes(a1: Aviso, a2: Aviso)
    requires TextoAviso(a1) == TextoAviso(a2)
    ensures a1.AmostraPequena? <==> a2.AmostraPequena?
    ensures a1.AmostraPequena? ==> a1 == a2
  {
    TextoAvisoInicial(a1);
    TextoAvisoInicial(a2);
    if a1.AmostraPequena? && a2.AmostraPequena? {
      Strings.MiddleUnique("Amostra pequena: apenas ", NatToString(a1.candidatos),
        NatToString(a2.candidatos), " candidatos. Recomendado: mínimo 100.");
    }
  }

  lemma TextoAvisoInicial(a: Aviso)
    ensures |TextoAviso(a)| > 0 && TextoAviso(a)[0] == if a.AmostraPequena? then 'A' else 'I'
  {
    match a
    case AmostraPequena(n) =>
      var p := "Amostra pequena: apenas " + NatToString(n);
      assert p[0] == 'A';
      assert (p + " candidatos. Recomendado: mínimo 100.")[0] == p[0];
    case VarianciaZero(itens, mais) =>
      var p := "Itens com variância zero " + "(todos acertam/erram): #";
      assert p[0] == 'I';
      var q := p + Join(NatsToStrings(itens), ", ");
      assert q[0] == p[0];
      assert (q + (if mais then "..." else ""))[0] == q[0];
  }

  // ---------------------------------------------------------------------
  // What the checks compute

  predicate Binario(v: real) {
    v == 0.0 || v == 1.0
  }

  /** The cells other than 0 and 1 in the given rows. */
  function NaoBinariosEm(rows: seq<seq<real>>): nat {
    if rows == [] then 0
    else NaoBinariosEm(rows[..|rows| - 1]) + Seqs.Count(rows[|rows| - 1], (v: real) => !Binario(v))
  }

  /** `row[j]`, `undefined` past the end of a short row. */
  function Cell(row: seq<real>, j: nat): Option<real> {
    if j < |row| then Some(row[j]) else None
  }

  /** `data.map(row => row[j])`. */
  function Coluna(data: seq<seq<real>>, j: nat): (c: seq<Option<real>>)
    ensures |c| == |data|
    ensures forall r :: 0 <= r < |data| ==> c[r] == Cell(data[r], j)
  {
    seq(|data|, r requires 0 <= r < |data| => Cell(data[r], j))
  }

  /** Every row holds the same value (or none) in column `j`. */
  predicate Constante(data: seq<seq<real>>, j: nat) {
    |data| > 0 && forall r :: 0 <= r < |data| ==> Cell(data[r], j) == Cell(data[0], j)
  }

  /** The 1-based numbers of the constant columns among the first `n`. */
  function ColunasConstantes(data: seq<seq<real>>, n: nat): seq<nat> {
    if n == 0 then []
    else ColunasConstantes(data, n - 1) + (if Constante(data, n - 1) then [n] else [])
  }

  function NItens(data: seq<seq<real>>): nat {
    if |data| > 0 then |data[0]| else 0
  }

  function Min(a: nat, b: nat): nat {
    if a < b then a else b
  }

  function Headers(nItens: nat): (h: seq<string>)
    ensures |h| == Min(nItens, ColunasPreview) + 1
    ensures h[0] == "Candidato"
    ensures forall i :: 1 <= i < |h| ==> h[i] == "Q" + NatToString(i)
  {
    ["Candidato"] + seq(Min(nItens, ColunasPreview), i requires 0 <= i => "Q" + NatToString(i + 1))
  }

  function PreviewRows(data: seq<seq<real>>): (rows: seq<PreviewRow>)
    ensures |rows| == Min(|data|, LinhasPreview)
    ensures forall i :: 0 <= i < |rows| ==>
      && rows[i].rotulo == "Candidato " + NatToString(i + 1)
      && rows[i].valores == data[i][..Min(|data[i]|, ColunasPreview)]
  {
    seq(Min(|data|, LinhasPreview), i requires 0 <= i < Min(|data|, LinhasPreview) =>
      PreviewRow("Candidato " + NatToString(i + 1), data[i][..Min(|data[i]|, ColunasPreview)]))
  }

  // ---------------------------------------------------------------------
  // The validator

  /** `validateData`, loop by loop. */
  method ValidateData(data: seq<seq<real>>) returns (r: ValidationResult)
    ensures r.valido <==> r.erros == []
    ensures var nb := NaoBinariosEm(data[..Min(|data|, LinhasVerificadas)]);
            r.erros == (if |data| == 0 then [ArquivoVazio] else []) + (if nb > 0 then [NaoBinarios(nb)] else [])
    ensures var z := ColunasConstantes(data, NItens(data));
            r.avisos == (if |data| < AmostraMinima then [AmostraPequena(|data|)] else [])
                      + (if |z| > 0 then [VarianciaZero(z[..Min(|z|, ItensListados)], |z| > ItensListados)] else [])
    ensures r.preview == Preview(Headers(NItens(data)), PreviewRows(data))
  {
    var erros: seq<Erro> := [];
    var avisos: seq<Aviso> := [];

    if |data| == 0 {
      erros := erros + [ArquivoVazio];
    }
    if |data| < AmostraMinima {
      avisos := avisos + [AmostraPequena(|data|)];
    }

    var naoBinarios := ContarNaoBinarios(data, Min(|data|, LinhasVerificadas));
    if naoBinarios > 0 {
      erros := erros + [NaoBinarios(naoBinarios)];
    }

    ghost var avisosAmostra := avisos;
    assert avisosAmostra == (if |data| < AmostraMinima then [AmostraPequena(|data|)] else []);

    var nItens := if |data| > 0 then |data[0]| else 0;
    assert nItens == NItens(data);
    var itensZeroVariancia := ItensZeroVariancia(data, nItens);
    if |itensZeroVariancia| > 0 {
      var shown := itensZeroVariancia[..Min(|itensZeroVariancia|, ItensListados)];
      avisos := avisos + [VarianciaZero(shown, |itensZeroVariancia| > ItensListados)];
    } else {
      assert avisos == avisosAmostra + [];
    }

    var preview := Preview(Headers(nItens), PreviewRows(data));
    r := ValidationResult(|erros| == 0, erros, avisos, preview);
  }

  /** The nested loops counting non-binary cells in the first `limite`
      rows. */
  method ContarNaoBinarios(data: seq<seq<real>>, limite: nat) returns (naoBinarios: nat)
    requires limite <= |data|
    ensures naoBinarios == NaoBinariosEm(data[..limite])
  {
    naoBinarios := 0;
    var i := 0;
    while i < limite
      invariant 0 <= i <= limite
      invariant naoBinarios == NaoBinariosEm(data[..i])
    {
      var j := 0;
      while j < |data[i]|
        invariant 0 <= j <= |data[i]|
        invariant naoBinarios == NaoBinariosEm(data[..i]) + Seqs.Count(data[i][..j], (v: real) => !Binario(v))
      {
        CountSnoc(data[i], j, (v: real) => !Binario(v));
        if data[i][j] != 0.0 && data[i][j] != 1.0 {
          naoBinarios := naoBinarios + 1;
        }
        j := j + 1;
      }
      assert data[i][..j] == data[i];
      assert data[..i + 1][..i] == data[..i];
      i := i + 1;
    }
  }

  /** The loop over the first `nItens` columns, collecting (1-based) those
      whose set of values has one element. */
  method ItensZeroVariancia(data: seq<seq<real>>, nItens: nat) returns (itens: seq<nat>)
    ensures itens == ColunasConstantes(data, nItens)
  {
    itens := [];
    var c := 0;
    while c < nItens
      invariant 0 <= c <= nItens
      invariant itens == ColunasConstantes(data, c)
    {
      var valores := Coluna(data, c);
      var unicos := set v | v in valores;
      SingletonIffConstant(valores);
      if |unicos| == 1 {
        itens := itens + [c + 1];
      }
      c := c + 1;
    }
  }

  // ---------------------------------------------------------------------
  // Properties

  lemma CountSnoc(s: seq<real>, j: nat, p: real -> bool)
    requires j < |s|
    ensures Seqs.Count(s[..j + 1], p) == Seqs.Count(s[..j], p) + (if p(s[j]) then 1 else 0)
  {
    assert s[..j + 1] == s[..j] + [s[j]];
    Seqs.CountConcat(s[..j], [s[j]], p);
  }

  /** `new Set(valores).size === 1` exactly when the column is non-empty
      and all its values are the same. */
  lemma SingletonIffConstant<T>(s: seq<T>)
    ensures |set v | v in s| == 1 <==> |s| > 0 && forall i :: 0 <= i < |s| ==> s[i] == s[0]
  {
    var u := set v | v in s;
    if |s| > 0 && forall i :: 0 <= i < |s| ==> s[i] == s[0] {
      assert u == {s[0]};
    }
    if |u| == 1 {
      var x :| x in u;
      assert u + {x} == u && u * {x} == {x} && {x} - u == {};
      assert |u - {x}| == 0;
      assert forall i :: 0 <= i < |s| ==> s[i] == x by {
        forall i | 0 <= i < |s|
          ensures s[i] == x
        {
          assert s[i] in u;
        }
      }
    }
  }

  /** `Coluna`'s form of constancy is `Constante`. */
  lemma ColunaConstante(data: seq<seq<real>>, j: nat)
    ensures (|Coluna(data, j)| > 0 && forall i :: 0 <= i < |Coluna(data, j)| ==> Coluna(data, j)[i] == Coluna(data, j)[0])
        <==> Constante(data, j)
  {
  }

  /** No non-binary cell is counted exactly when every cell of the rows is 0
      or 1. */
  lemma {:induction false} NaoBinariosZero(rows: seq<seq<real>>)
    ensures NaoBinariosEm(rows) == 0 <==> forall i, j :: 0 <= i < |rows| && 0 <= j < |rows[i]| ==> Binario(rows[i][j])
  {
    if rows != [] {
      var init := rows[..|rows| - 1];
      var last := rows[|rows| - 1];
      NaoBinariosZero(init);
      CountZero(last, (v: real) => !Binario(v));
      assert forall i :: 0 <= i < |init| ==> init[i] == rows[i];
    }
  }

  lemma {:induction false} CountZero(s: seq<real>, p: real -> bool)
    ensures Seqs.Count(s, p) == 0 <==> forall j :: 0 <= j < |s| ==> !p(s[j])
  {
    if s != [] {
      CountZero(s[1..], p);
      assert forall j :: 1 <= j < |s| ==> s[j] == s[1..][j - 1];
    }
  }

  /** Column `x` (1-based) is reported exactly when it is within the first
      row's length and constant. */
  lemma {:induction false} ColunasConstantesMeaning(data: seq<seq<real>>, n: nat, x: nat)
    ensures x in ColunasConstantes(data, n) <==> 1 <= x <= n && Constante(data, x - 1)
  {
    if n > 0 {
      ColunasConstantesMeaning(data, n - 1, x);
    }
  }

  /** The reported columns are in increasing order. */
  lemma {:induction false} ColunasConstantesSorted(data: seq<seq<real>>, n: nat)
    ensures forall i, j :: 0 <= i < j < |ColunasConstantes(data, n)| ==>
      ColunasConstantes(data, n)[i] < ColunasConstantes(data, n)[j]
    ensures forall i :: 0 <= i < |ColunasConstantes(data, n)| ==> 1 <= ColunasConstantes(data, n)[i] <= n
  {
    if n > 0 {
      ColunasConstantesSorted(data, n - 1);
    }
  }

  /** Rows after the first 100 are never checked for non-binary cells. */
  lemma OnlyFirstRowsChecked(data: seq<seq<real>>, extra: seq<seq<real>>)
    requires |data| >= LinhasVerificadas
    ensures NaoBinariosEm((data + extra)[..Min(|data + extra|, LinhasVerificadas)])
         == NaoBinariosEm(data[..Min(|data|, LinhasVerificadas)])
  {
    assert (data + extra)[..LinhasVerificadas] == data[..LinhasVerificadas];
  }
}
