/** The adjustment panel's handlers: one adjustment slider, quarter-turn
    rotation, horizontal flip and the adjustments reset. */
module AdjustmentPanel {
  import opened Base
  import opened Editor

  /** The five adjustment names the sliders pass. */
  datatype AdjustmentKey = Brightness | Contrast | Saturate | Hue | Blur

  function Get(a: Adjustments, key: AdjustmentKey): real
  {
    match key
    case Brightness => a.brightness
    case Contrast => a.contrast
    case Saturate => a.saturate
    case Hue => a.hue
    case Blur => a.blur
  }

  /** The neutral adjustments the reset restores. */
  const Neutral: Adjustments := Adjustments(100.0, 100.0, 100.0, 0.0, 0.0)

  /** `handleAdjustmentChange`: replace the named adjustment and pass the
      slider's commit flag through. */
  function HandleAdjustmentChange(s: EditorState, key: AdjustmentKey, value: real, commit: bool): (r: StateChange)
    ensures Get(r.state.adjustments, key) == value
    ensures forall k :: k != key ==> Get(r.state.adjustments, k) == Get(s.adjustments, k)
    ensures r.state.transform == s.transform && r.state.effects == s.effects
    ensures r.commit == commit
  {
    var a := s.adjustments;
    var a' := match key
      case Brightness => a.(brightness := value)
      case Contrast => a.(contrast := value)
      case Saturate => a.(saturate := value)
      case Hue => a.(hue := value)
      case Blur => a.(blur := value);
    StateChange(s.(adjustments := a'), commit)
  }

  datatype Direction = Cw | Ccw

  /** The signed quarter turn of a direction, in degrees. */
  function Amount(d: Direction): int
  {
    if d == Cw then 90 else -90
  }

  /** The rotations the transform is meant to hold. */
  predicate ValidRotation(r: int)
  {
    r == 0 || r == 90 || r == 180 || r == 270
  }

  /** `handleRotate`: `(rotation + amount + 360) % 360` with JavaScript's
      truncating `%`, committed; nothing but the rotation changes. */
  function HandleRotate(s: EditorState, d: Direction): (r: StateChange)
    ensures r.state == s.(transform := s.transform.(rotation := r.state.transform.rotation))
    ensures r.commit
    ensures s.transform.rotation + Amount(d) + 360 >= 0 ==>
      r.state.transform.rotation == (s.transform.rotation + Amount(d)) % 360
    ensures ValidRotation(s.transform.rotation) ==> ValidRotation(r.state.transform.rotation)
  {
    var rotation := JsRem(s.transform.rotation + Amount(d) + 360, 360);
    StateChange(s.(transform := s.transform.(rotation := rotation)), true)
  }

  /** Four clockwise quarter turns give back the same state. */
  lemma FourQuarterTurns(s: EditorState)
    requires ValidRotation(s.transform.rotation)
    ensures HandleRotate(HandleRotate(HandleRotate(HandleRotate(s, Cw).state, Cw).state, Cw).state, Cw).state == s
  {
  }

  /** A quarter turn one way undone by a quarter turn the other way. */
  lemma TurnAndTurnBack(s: EditorState, d: Direction)
    requires ValidRotation(s.transform.rotation)
    ensures HandleRotate(HandleRotate(s, d).state, if d == Cw then Ccw else Cw).state == s
  {
  }

  /** `handleFlip`: negate `flipH`, committed; nothing else changes. */
  function HandleFlip(s: EditorState): (r: StateChange)
    ensures r.state.transform.flipH != s.transform.flipH
    ensures r.state == s.(transform := s.transform.(flipH := r.state.transform.flipH))
    ensures r.commit
  {
    StateChange(s.(transform := s.transform.(flipH := !s.transform.flipH)), true)
  }

  /** Flipping twice is the identity. */
  lemma FlipTwice(s: EditorState)
    ensures HandleFlip(HandleFlip(s).state).state == s
  {
  }

  /** `resetAdjustments`: neutral adjustments, committed; transform and effects kept. */
  function ResetAdjustments(s: EditorState): (r: StateChange)
    ensures forall k :: Get(r.state.adjustments, k) == (if k in {Brightness, Contrast, Saturate} then 100.0 else 0.0)
    ensures r.state.transform == s.transform && r.state.effects == s.effects
    ensures r.commit
  {
    StateChange(s.(adjustments := Neutral), true)
  }

  /** Resetting twice is the same as resetting once. */
  lemma ResetAdjustmentsIdempotent(s: EditorState)
    ensures ResetAdjustments(ResetAdjustments(s).state) == ResetAdjustments(s)
  {
  }
}
