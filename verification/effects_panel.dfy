/** The effects panel's handlers: the vignette and noise sliders, the preset
    buttons and the effects reset. */
module EffectsPanel {
  import opened Editor

  /** The numeric effect names the sliders pass. */
  datatype EffectKey = Vignette | Noise

  function Get(e: Effects, key: EffectKey): real
  {
    match key
    case Vignette => e.vignette
    case Noise => e.noise
  }

  /** One preset button: the preset and its label. */
  datatype PresetButton = PresetButton(id: Preset, name: string)

  /** The preset buttons, in display order. */
  const Presets: seq<PresetButton> := [
    PresetButton(NoPreset, "None"),
    PresetButton(Sepia, "Sepia"),
    PresetButton(Grayscale, "Grayscale"),
    PresetButton(Invert, "Invert")
  ]

  /** Every preset has exactly one button, and the ids are the four strings
      `none`, `sepia`, `grayscale`, `invert`. */
  lemma PresetButtonsCoverPresets()
    ensures forall p: Preset :: p in ButtonIds()
    ensures forall i, j :: 0 <= i < j < |Presets| ==> Presets[i].id != Presets[j].id
    ensures forall p: Preset :: p.Id() in {"none", "sepia", "grayscale", "invert"}
    ensures forall p: Preset, q: Preset :: p.Id() == q.Id() ==> p == q
  {
    var ids := ButtonIds();
    assert Presets[0] in Presets && Presets[1] in Presets && Presets[2] in Presets && Presets[3] in Presets;
    assert NoPreset in ids && Sepia in ids && Grayscale in ids && Invert in ids;
    forall p: Preset ensures p in ids {
      match p
      case NoPreset =>
      case Sepia =>
      case Grayscale =>
      case Invert =>
    }
  }

  /** The presets that have a button. */
  function ButtonIds(): set<Preset>
  {
    set b | b in Presets :: b.id
  }

  /** `handleEffectChange`: replace the named effect and pass the commit flag through. */
  function HandleEffectChange(s: EditorState, key: EffectKey, value: real, commit: bool): (r: StateChange)
    ensures Get(r.state.effects, key) == value
    ensures forall k :: k != key ==> Get(r.state.effects, k) == Get(s.effects, k)
    ensures r.state.effects.preset == s.effects.preset
    ensures r.state.adjustments == s.adjustments && r.state.transform == s.transform
    ensures r.commit == commit
  {
    var e := s.effects;
    var e' := match key
      case Vignette => e.(vignette := value)
      case Noise => e.(noise := value);
    StateChange(s.(effects := e'), commit)
  }

  /** `handlePresetChange`: set the preset, committed; everything else kept. */
  function HandlePresetChange(s: EditorState, preset: Preset): (r: StateChange)
    ensures r.state.effects.preset == preset
    ensures forall k :: Get(r.state.effects, k) == Get(s.effects, k)
    ensures r.state.adjustments == s.adjustments && r.state.transform == s.transform
    ensures r.commit
  {
    StateChange(s.(effects := s.effects.(preset := preset)), true)
  }

  /** `resetEffects`: preset `none`, no vignette, no noise, committed. */
  function ResetEffects(s: EditorState): (r: StateChange)
    ensures r.state.effects.preset.Id() == "none"
    ensures forall k :: Get(r.state.effects, k) == 0.0
    ensures r.state.adjustments == s.adjustments && r.state.transform == s.transform
    ensures r.commit
  {
    StateChange(s.(effects := Effects(NoPreset, 0.0, 0.0)), true)
  }

  /** Resetting twice is the same as resetting once. */
  lemma ResetEffectsIdempotent(s: EditorState)
    ensures ResetEffects(ResetEffects(s).state) == ResetEffects(s)
  {
  }

  /** Choosing the same preset again changes nothing further. */
  lemma PresetChangeIdempotent(s: EditorState, p: Preset)
    ensures HandlePresetChange(HandlePresetChange(s, p).state, p) == HandlePresetChange(s, p)
  {
  }
}
