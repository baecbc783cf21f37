/** The text panel: its form fields, the sync with the selected text object,
    and the requests it sends to add, update or delete text objects. */
module TextPanel {
  import opened Base

  datatype FontWeight = NormalWeight | Bold
  datatype FontStyle = NormalStyle | Italic
  datatype TextDecoration = NoDecoration | Underline

  /** A text object placed on the image, anchored at its centre `(x, y)`. */
  datatype TextObject = TextObject(
    id: string, text: string, x: real, y: real, size: real, color: string, font: string,
    fontWeight: FontWeight, fontStyle: FontStyle, textDecoration: TextDecoration)

  /** The panel's own form fields. */
  datatype Form = Form(
    text: string, font: string, size: real, color: string,
    fontWeight: FontWeight, fontStyle: FontStyle, textDecoration: TextDecoration)

  /** The form before any interaction. */
  const InitialForm: Form := Form("Hello World", "Impact", 80.0, "#FFFFFF", NormalWeight, NormalStyle, NoDecoration)

  /** The form fields a text object carries. */
  function FormOf(o: TextObject): Form
  {
    Form(o.text, o.font, o.size, o.color, o.fontWeight, o.fontStyle, o.textDecoration)
  }

  /** The effect run when the selected object changes: copy every field from
      it, or, when nothing is selected, reset only the three style fields. */
  function SyncActive(f: Form, active: Option<TextObject>): (r: Form)
    ensures active.Some? ==> r == FormOf(active.value)
    ensures active.None? ==>
      r.fontWeight == NormalWeight && r.fontStyle == NormalStyle && r.textDecoration == NoDecoration
    ensures active.None? ==> r.text == f.text && r.font == f.font && r.size == f.size && r.color == f.color
  {
    match active
    case Some(o) => Form(o.text, o.font, o.size, o.color, o.fontWeight, o.fontStyle, o.textDecoration)
    case None => f.(fontWeight := NormalWeight, fontStyle := NormalStyle, textDecoration := NoDecoration)
  }

  /** One edit of one field, as the panel's inputs and style buttons make it. */
  datatype Edit =
    | SetText(text: string)
    | SetFont(font: string)
    | SetColor(color: string)
    | SetSize(size: real)
    | SetWeight(weight: FontWeight)
    | SetStyle(style: FontStyle)
    | SetDecoration(decoration: TextDecoration)

  /** The fields of a text object. */
  datatype Field = Id | Text | X | Y | Size | Color | Font | Weight | Style | Decoration

  /** The field an edit targets. */
  function Target(e: Edit): Field
  {
    match e
    case SetText(_) => Text
    case SetFont(_) => Font
    case SetColor(_) => Color
    case SetSize(_) => Size
    case SetWeight(_) => Weight
    case SetStyle(_) => Style
    case SetDecoration(_) => Decoration
  }

  /** The object holds the value the edit writes. */
  predicate Holds(o: TextObject, e: Edit)
  {
    match e
    case SetText(t) => o.text == t
    case SetFont(t) => o.font == t
    case SetColor(t) => o.color == t
    case SetSize(v) => o.size == v
    case SetWeight(w) => o.fontWeight == w
    case SetStyle(s) => o.fontStyle == s
    case SetDecoration(d) => o.textDecoration == d
  }

  /** Two objects agree on one field. */
  predicate SameField(a: TextObject, b: TextObject, fld: Field)
  {
    match fld
    case Id => a.id == b.id
    case Text => a.text == b.text
    case X => a.x == b.x
    case Y => a.y == b.y
    case Size => a.size == b.size
    case Color => a.color == b.color
    case Font => a.font == b.font
    case Weight => a.fontWeight == b.fontWeight
    case Style => a.fontStyle == b.fontStyle
    case Decoration => a.textDecoration == b.textDecoration
  }

  /** `{ ...o, [key]: value }`. */
  function Apply(o: TextObject, e: Edit): TextObject
  {
    match e
    case SetText(t) => o.(text := t)
    case SetFont(t) => o.(font := t)
    case SetColor(t) => o.(color := t)
    case SetSize(v) => o.(size := v)
    case SetWeight(w) => o.(fontWeight := w)
    case SetStyle(s) => o.(fontStyle := s)
    case SetDecoration(d) => o.(textDecoration := d)
  }

  /** The same edit on the form's copy of the field. */
  function ApplyToForm(f: Form, e: Edit): Form
  {
    match e
    case SetText(t) => f.(text := t)
    case SetFont(t) => f.(font := t)
    case SetColor(t) => f.(color := t)
    case SetSize(v) => f.(size := v)
    case SetWeight(w) => f.(fontWeight := w)
    case SetStyle(s) => f.(fontStyle := s)
    case SetDecoration(d) => f.(textDecoration := d)
  }

  /** `handleUpdate`: the object sent to `onUpdateText`, or `None` when no
      object is selected and nothing is sent. The sent object holds the new
      value, and every other field, the id included, is the selected one's. */
  function HandleUpdate(active: Option<TextObject>, e: Edit): (r: Option<TextObject>)
    ensures r.None? <==> active.None?
    ensures r.Some? ==> Holds(r.value, e)
    ensures r.Some? ==> forall fld :: fld != Target(e) ==> SameField(r.value, active.value, fld)
  {
    match active
    case None => None
    case Some(o) => Some(Apply(o, e))
  }

  /** Editing the selected object's field and then selecting it again gives
      the form the same edit would have given. */
  lemma UpdateThenSync(f: Form, o: TextObject, e: Edit)
    requires f == FormOf(o)
    ensures SyncActive(f, HandleUpdate(Some(o), e)) == ApplyToForm(f, e)
  {
  }

  /** The outcome of one panel interaction: the new form and the object sent
      to `onUpdateText`, if any. */
  datatype Interaction = Interaction(form: Form, update: Option<TextObject>)

  /** An input's `onChange` (text, font, colour, size): set the form field and,
      when an object is selected, update it too. */
  function HandleFieldEdit(f: Form, active: Option<TextObject>, e: Edit): (r: Interaction)
    ensures r.form == ApplyToForm(f, e)
    ensures r.update.None? <==> active.None?
    ensures r.update.Some? ==> Holds(r.update.value, e)
    ensures r.update.Some? ==> forall fld :: fld != Target(e) ==> SameField(r.update.value, active.value, fld)
    ensures active.Some? && FormOf(active.value) == f ==> r.update.Some? && FormOf(r.update.value) == r.form
  {
    Interaction(ApplyToForm(f, e), HandleUpdate(active, e))
  }

  function ToggleWeight(w: FontWeight): FontWeight
  {
    if w == Bold then NormalWeight else Bold
  }

  function ToggleStyle(s: FontStyle): FontStyle
  {
    if s == Italic then NormalStyle else Italic
  }

  function ToggleDecoration(d: TextDecoration): TextDecoration
  {
    if d == Underline then NoDecoration else Underline
  }

  /** Each toggle swaps its two values, so toggling twice is the identity. */
  lemma TogglesAreInvolutions(w: FontWeight, s: FontStyle, d: TextDecoration)
    ensures ToggleWeight(w) != w && ToggleWeight(ToggleWeight(w)) == w
    ensures ToggleStyle(s) != s && ToggleStyle(ToggleStyle(s)) == s
    ensures ToggleDecoration(d) != d && ToggleDecoration(ToggleDecoration(d)) == d
  {
  }

  /** The three style buttons. */
  datatype StyleButton = BoldButton | ItalicButton | UnderlineButton

  /** The edit a style button makes: the opposite of the FORM's current value. */
  function ToggleEdit(f: Form, key: StyleButton): Edit
  {
    match key
    case BoldButton => SetWeight(ToggleWeight(f.fontWeight))
    case ItalicButton => SetStyle(ToggleStyle(f.fontStyle))
    case UnderlineButton => SetDecoration(ToggleDecoration(f.textDecoration))
  }

  /** `handleStyleToggle`: flip the form's style field and, with a selected
      object, send it with only that field changed. */
  function HandleStyleToggle(f: Form, active: Option<TextObject>, key: StyleButton): (r: Interaction)
    ensures key == BoldButton ==> r.form == f.(fontWeight := ToggleWeight(f.fontWeight))
    ensures key == ItalicButton ==> r.form == f.(fontStyle := ToggleStyle(f.fontStyle))
    ensures key == UnderlineButton ==> r.form == f.(textDecoration := ToggleDecoration(f.textDecoration))
    ensures r.update.None? <==> active.None?
    ensures r.update.Some? && key == BoldButton ==> r.update.value.fontWeight == ToggleWeight(f.fontWeight)
    ensures r.update.Some? && key == ItalicButton ==> r.update.value.fontStyle == ToggleStyle(f.fontStyle)
    ensures r.update.Some? && key == UnderlineButton ==>
      r.update.value.textDecoration == ToggleDecoration(f.textDecoration)
    ensures r.update.Some? ==>
      forall fld :: fld != Target(ToggleEdit(f, key)) ==> SameField(r.update.value, active.value, fld)
    ensures active.Some? && FormOf(active.value) == f ==> SyncActive(f, r.update) == r.form
  {
    HandleFieldEdit(f, active, ToggleEdit(f, key))
  }

  /** With nothing selected, pressing a style button twice restores the form. */
  lemma ToggleTwiceUnselected(f: Form, key: StyleButton)
    ensures HandleStyleToggle(HandleStyleToggle(f, None, key).form, None, key) == Interaction(f, None)
  {
  }

  /** With an object selected and the form in sync with it, pressing a style
      button, letting the selection sync, and pressing it again sends back
      the original object and restores the form. */
  lemma ToggleTwiceSelected(o: TextObject, key: StyleButton)
    ensures var first := HandleStyleToggle(FormOf(o), Some(o), key);
      var synced := SyncActive(first.form, first.update);
      HandleStyleToggle(synced, first.update, key) == Interaction(FormOf(o), Some(o))
  {
  }

  /** The canvas size, in pixels. */
  datatype Canvas = Canvas(width: nat, height: nat)

  /** `handleAdd`: with a canvas and non-empty text, a new object at the
      canvas centre carrying the form's fields; `id` stands for the clock
      reading the source uses. */
  function HandleAdd(f: Form, canvas: Option<Canvas>, id: string): (r: Option<TextObject>)
    ensures r.None? <==> canvas.None? || f.text == ""
    ensures r.Some? ==> r.value.id == id && FormOf(r.value) == f
    ensures r.Some? ==>
      2.0 * r.value.x == canvas.value.width as real && 2.0 * r.value.y == canvas.value.height as real
  {
    match canvas
    case None => None
    case Some(c) =>
      if f.text == "" then None
      else Some(TextObject(id, f.text, c.width as real / 2.0, c.height as real / 2.0,
                           f.size, f.color, f.font, f.fontWeight, f.fontStyle, f.textDecoration))
  }

  /** Selecting the object just added leaves the form as it was. */
  lemma AddThenSelect(f: Form, c: Canvas, id: string)
    requires f.text != ""
    ensures HandleAdd(f, Some(c), id).Some?
    ensures SyncActive(f, HandleAdd(f, Some(c), id)) == f
  {
  }

  /** `handleDelete`: the id sent to `onDeleteText`, only when an object is selected. */
  function HandleDelete(active: Option<TextObject>): (r: Option<string>)
    ensures r.Some? <==> active.Some?
    ensures r.Some? ==> r.value == active.value.id
  {
    match active
    case None => None
    case Some(o) => Some(o.id)
  }

  /** The object just added, once selected, is deleted by the id it was
      given. */
  lemma AddThenDelete(f: Form, c: Canvas, id: string)
    requires f.text != ""
    ensures HandleDelete(HandleAdd(f, Some(c), id)) == Some(id)
  {
  }

  /** When nothing is selected at mount, the sync leaves the initial form as
      it is: its style fields already hold the reset values. */
  lemma MountKeepsInitialForm()
    ensures SyncActive(InitialForm, None) == InitialForm
  {
  }
}
