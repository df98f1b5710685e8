// The global application store: one record of shared state, a setter per
// field, a reset to the initial state, and the part of the state that is
// persisted between sessions.

module AppStore {
  import opened Wrappers
  import opened Types

  /** `etapa_atual`. */
  datatype Etapa = Upload | Config | Processing | Results

  /** A snapshot of every field of the store. */
  datatype AppState = AppState(
    upload: Option<DataUpload>,
    preset: Option<PresetConfig>,
    modelo: TriModel,
    calibracao: Option<CalibrationResult>,
    escores: Option<seq<ScoringResult>>,
    catSession: Option<CatSession>,
    etapaAtual: Etapa,
    isLoading: bool,
    erro: Option<string>)

  /** `initialState`. */
  const InitialState: AppState :=
    AppState(None, None, Rasch, None, None, None, Upload, false, None)

  /** What `partialize` keeps for storage. */
  datatype Persisted = Persisted(preset: Option<PresetConfig>, modelo: TriModel)

  /** `partialize`. */
  function Partialize(s: AppState): (p: Persisted)
    ensures p.preset == s.preset && p.modelo == s.modelo
  {
    Persisted(s.preset, s.modelo)
  }

  /** Two states persist alike exactly when their preset and model agree:
      nothing else reaches storage. */
  lemma PartializeKeepsOnlyPresetAndModelo(s1: AppState, s2: AppState)
    ensures Partialize(s1) == Partialize(s2) <==> s1.preset == s2.preset && s1.modelo == s2.modelo
  {
  }

  /** The store, whose fields its actions update in place. */
  class Store {
    var upload: Option<DataUpload>
    var preset: Option<PresetConfig>
    var modelo: TriModel
    var calibracao: Option<CalibrationResult>
    var escores: Option<seq<ScoringResult>>
    var catSession: Option<CatSession>
    var etapaAtual: Etapa
    var isLoading: bool
    var erro: Option<string>

    function State(): AppState
      reads this
    {
      AppState(upload, preset, modelo, calibracao, escores, catSession, etapaAtual, isLoading, erro)
    }

    /** `create(...)` spreads `initialState`. */
    constructor()
      ensures State() == InitialState
    {
      upload := None;
      preset := None;
      modelo := Rasch;
      calibracao := None;
      escores := None;
      catSession := None;
      etapaAtual := Upload;
      isLoading := false;
      erro := None;
    }

    /** `setUpload` also clears the error. */
    method SetUpload(u: Option<DataUpload>)
      modifies this
      ensures State() == old(State()).(upload := u, erro := None)
    {
      upload := u;
      erro := None;
    }

    /** `setPreset` also clears the error. */
    method SetPreset(p: Option<PresetConfig>)
      modifies this
      ensures State() == old(State()).(preset := p, erro := None)
    {
      preset := p;
      erro := None;
    }

    method SetModelo(m: TriModel)
      modifies this
      ensures State() == old(State()).(modelo := m)
    {
      modelo := m;
    }

    method SetCalibracao(c: Option<CalibrationResult>)
      modifies this
      ensures State() == old(State()).(calibracao := c)
    {
      calibracao := c;
    }

    method SetEscores(e: Option<seq<ScoringResult>>)
      modifies this
      ensures State() == old(State()).(escores := e)
    {
      escores := e;
    }

    method SetCatSession(s: Option<CatSession>)
      modifies this
      ensures State() == old(State()).(catSession := s)
    {
      catSession := s;
    }

    method SetEtapa(e: Etapa)
      modifies this
      ensures State() == old(State()).(etapaAtual := e)
    {
      etapaAtual := e;
    }

    method SetLoading(l: bool)
      modifies this
      ensures State() == old(State()).(isLoading := l)
    {
      isLoading := l;
    }

    method SetErro(e: Option<string>)
      modifies this
      ensures State() == old(State()).(erro := e)
    {
      erro := e;
    }

    /** `reset`: the initial state, whatever came before; a second reset
        therefore changes nothing. */
    method Reset()
      modifies this
      ensures State() == InitialState
    {
      upload := None;
      preset := None;
      modelo := Rasch;
      calibracao := None;
      escores := None;
      catSession := None;
      etapaAtual := Upload;
      isLoading := false;
      erro := None;
    }

    /** `partialize` of the current state. */
    function Persist(): (p: Persisted)
      reads this
      ensures p == Partialize(State())
    {
      Persisted(preset, modelo)
    }
  }

  /** What each action does to the stored record: `setPreset` and
      `setModelo` replace their half of it, and every other action, applied
      to any state, leaves it as it was. */
  lemma ActionsOnPersisted(s: AppState, u: Option<DataUpload>, p: Option<PresetConfig>, m: TriModel,
                           c: Option<CalibrationResult>, e: Option<seq<ScoringResult>>,
                           cs: Option<CatSession>, etapa: Etapa, l: bool, erro: Option<string>)
    ensures Partialize(s.(preset := p, erro := None)) == Persisted(p, s.modelo)
    ensures Partialize(s.(modelo := m)) == Persisted(s.preset, m)
    ensures Partialize(s.(upload := u, erro := None)) == Partialize(s)
    ensures Partialize(s.(calibracao := c)) == Partialize(s)
    ensures Partialize(s.(escores := e)) == Partialize(s)
    ensures Partialize(s.(catSession := cs)) == Partialize(s)
    ensures Partialize(s.(etapaAtual := etapa)) == Partialize(s)
    ensures Partialize(s.(isLoading := l)) == Partialize(s)
    ensures Partialize(s.(erro := erro)) == Partialize(s)
    ensures Partialize(InitialState) == Persisted(None, Rasch)
  {
  }
}
