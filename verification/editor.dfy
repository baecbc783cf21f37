/** The editor-state record the adjustment and effects panels update, as its
    fields are used by those panels, and the `(newState, commit)` pair they
    hand to `onStateChange`. */
module Editor {

  /** Continuous adjustments: percentages (100 is neutral), degrees and pixels. */
  datatype Adjustments = Adjustments(brightness: real, contrast: real, saturate: real, hue: real, blur: real)

  /** Quarter-turn rotation in degrees and horizontal mirroring. */
  datatype Transform = Transform(rotation: int, flipH: bool)

  /** The mutually exclusive tone presets `'none' | 'sepia' | 'grayscale' | 'invert'`. */
  datatype Preset = NoPreset | Sepia | Grayscale | Invert {
    /** The preset's id string. */
    function Id(): string
    {
      match this
      case NoPreset => "none"
      case Sepia => "sepia"
      case Grayscale => "grayscale"
      case Invert => "invert"
    }
  }

  /** Tone preset and the two post-effect intensities. */
  datatype Effects = Effects(preset: Preset, vignette: real, noise: real)

  datatype EditorState = EditorState(adjustments: Adjustments, transform: Transform, effects: Effects)

  /** One call of `onStateChange`: the new state and whether it is committed. */
  datatype StateChange = StateChange(state: EditorState, commit: bool)
}
