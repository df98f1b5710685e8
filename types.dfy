/** The records of the dashboard's shared type declarations, as far as the
    modelled code reads or stores them. Browser-only members (a `File`
    handle) are omitted. */
module Types {
  import opened Wrappers

  datatype TriModel = Rasch | TwoPL | ThreePL | ThreePLEnem

  datatype ScoringMethod = EAP | MAP | ML

  /** Item parameters of the 3PL model; `a` and `c` may be absent. */
  datatype ItemParameters = ItemParameters(a: Option<real>, b: real, c: Option<real>)

  datatype ItemStatus = Ok | Atencao | Removido

  datatype CalibratedItem = CalibratedItem(
    cod: string,
    posicao: Option<nat>,
    a: Option<real>,
    b: real,
    c: Option<real>,
    status: Option<ItemStatus>)
  {
    /** The structural view of a calibrated item as plain item parameters. */
    function Params(): ItemParameters {
      ItemParameters(a, b, c)
    }
  }

  datatype FitStatistics = FitStatistics(
    loglikelihood: real, aic: real, bic: real,
    rmsea: Option<real>, cfi: Option<real>, tli: Option<real>)

  datatype CalibrationResult = CalibrationResult(
    itens: seq<CalibratedItem>,
    estatisticasAjuste: FitStatistics,
    convergencia: bool,
    iteracoes: int)

  datatype ScoringResult = ScoringResult(
    theta: real,
    erroPadrao: real,
    ic95: (real, real),
    metodo: ScoringMethod,
    respostasConsideradas: int,
    itensRespondidos: Option<int>)

  datatype StopCriterion = ErroMinimo | MaxItens | SemItens

  datatype CatSession = CatSession(
    id: string,
    modelo: TriModel,
    itensDisponiveis: seq<string>,
    itensAplicados: seq<string>,
    respostas: map<string, bool>,
    thetaAtual: real,
    erroPadrao: real,
    finalizado: bool,
    criterioParada: Option<StopCriterion>)

  datatype UploadKind = CSV | XLSX | JSON

  datatype DataUpload = DataUpload(
    nome: string,
    tipo: UploadKind,
    dados: seq<seq<real>>,
    candidatos: seq<string>,
    itens: seq<string>,
    nCandidatos: int,
    nItens: int,
    mediaAcertos: real)

  datatype ExamType = ENEM | ENAMED | SAEB | CUSTOM

  datatype PresetConfig = PresetConfig(
    tipo: ExamType,
    modeloPadrao: TriModel,
    metodoScoring: ScoringMethod,
    nItens: int,
    areas: Option<seq<string>>,
    tempos: Option<map<string, real>>)
}
