/** What the result pane shows: the edited image when there is one, the
    original otherwise, or a placeholder. */
module ImageDisplay {
  import opened Base

  datatype View =
    | Placeholder
    | Picture(src: string, alt: string, badge: string)

  const EditedAlt: string := "AI Edited"
  const OriginalAlt: string := "Original Upload"
  const EditedBadge: string := "Edited Vision"
  const OriginalBadge: string := "Original"

  /** `editedImage || originalImage`, then the placeholder when that is
      empty, else the image with its alt text and badge. */
  function Render(originalImage: Option<string>, editedImage: Option<string>): (v: View)
    ensures v.Placeholder? <==> !Truthy(originalImage) && !Truthy(editedImage)
    ensures v.Picture? && Truthy(editedImage) ==> v.src == editedImage.value
    ensures v.Picture? && !Truthy(editedImage) ==> v.src == originalImage.value
    ensures v.Picture? ==> v.src != ""
    ensures v.Picture? ==> (v.alt == EditedAlt <==> Truthy(editedImage))
    ensures v.Picture? ==> (v.alt == OriginalAlt <==> !Truthy(editedImage))
    ensures v.Picture? ==> (v.badge == EditedBadge <==> Truthy(editedImage))
    ensures v.Picture? ==> (v.badge == OriginalBadge <==> !Truthy(editedImage))
  {
    var displayImage := Or(editedImage, originalImage);
    if !Truthy(displayImage) then Placeholder
    else
      var edited := Truthy(editedImage);
      Picture(displayImage.value,
              if edited then EditedAlt else OriginalAlt,
              if edited then EditedBadge else OriginalBadge)
  }

  /** Showing an edit never depends on the original. */
  lemma EditedHidesOriginal(o1: Option<string>, o2: Option<string>, edited: string)
    requires edited != ""
    ensures Render(o1, Some(edited)) == Render(o2, Some(edited)) == Picture(edited, EditedAlt, EditedBadge)
  {
  }
}
