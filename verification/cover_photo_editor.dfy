/**
 * The cover-photo editor. Each handler builds a new cover object from the current one
 * (spreading a missing cover gives an empty object) and from the preview URL the
 * component holds, and passes it to `onChange`.
 */
module CoverPhotoEditor {
  import opened Wrappers
  import opened Content

  /** `{ ...coverPhoto }`: the cover's fields, or none of them when there is no cover. */
  function Spread(cover: Option<CoverPhoto>): CoverPhoto {
    cover.GetOr(CoverPhoto(None, None, None, None))
  }

  /** The fields of a missing cover read as absent (`coverPhoto?.field`). */
  function SizeOf(cover: Option<CoverPhoto>): Option<string> {
    if cover.Some? then cover.value.size else None
  }

  function PositionOf(cover: Option<CoverPhoto>): Option<string> {
    if cover.Some? then cover.value.position else None
  }

  function GradientOf(cover: Option<CoverPhoto>): Option<bool> {
    if cover.Some? then cover.value.showGradient else None
  }

  /** `coverPhoto?.showGradient !== false`: whether the gradient is drawn. */
  predicate GradientShown(cover: Option<CoverPhoto>) {
    ShownOn(GradientOf(cover))
  }

  /** `handleFileChange`: the new image with the current size and position, defaulting to medium and center. */
  function ChooseFile(cover: Option<CoverPhoto>, dataUrl: string): (r: CoverPhoto)
    ensures r.url == Some(dataUrl)
    ensures r.size == Some(if SizeOf(cover).Some? && SizeOf(cover).value != "" then SizeOf(cover).value else "medium")
    ensures r.position == Some(if PositionOf(cover).Some? && PositionOf(cover).value != "" then PositionOf(cover).value else "center")
    ensures r.showGradient == Some(GradientOf(cover) != Some(false))
  {
    CoverPhoto(Some(dataUrl), Some(OrDefault(SizeOf(cover), "medium")), Some(OrDefault(PositionOf(cover), "center")),
               Some(GradientShown(cover)))
  }

  /** Choosing a file keeps whether the gradient is drawn. */
  lemma ChooseFileKeepsGradient(cover: Option<CoverPhoto>, dataUrl: string)
    ensures GradientShown(Some(ChooseFile(cover, dataUrl))) == GradientShown(cover)
  {
  }

  /** `handleRemoveCover`: the cover becomes null, and so does the preview. */
  function RemoveCover(): (r: (Option<CoverPhoto>, Option<string>))
    ensures r.0.None? && r.1.None?
  {
    (None, None)
  }

  /** `handleSizeChange`: size and url are set; position and gradient are kept. */
  function ChangeSize(cover: Option<CoverPhoto>, previewUrl: Option<string>, size: string): (r: CoverPhoto)
    ensures r.size == Some(size) && r.url == previewUrl
    ensures r.position == PositionOf(cover) && r.showGradient == GradientOf(cover)
  {
    Spread(cover).(url := previewUrl, size := Some(size))
  }

  /** `handlePositionChange`: position and url are set; size and gradient are kept. */
  function ChangePosition(cover: Option<CoverPhoto>, previewUrl: Option<string>, position: string): (r: CoverPhoto)
    ensures r.position == Some(position) && r.url == previewUrl
    ensures r.size == SizeOf(cover) && r.showGradient == GradientOf(cover)
  {
    Spread(cover).(url := previewUrl, position := Some(position))
  }

  /** `handleGradientToggle`: the stored flag becomes `!showGradient`, an unset flag counting as false. */
  function ToggleGradient(cover: Option<CoverPhoto>, previewUrl: Option<string>): (r: CoverPhoto)
    ensures r.url == previewUrl && r.size == SizeOf(cover) && r.position == PositionOf(cover)
    ensures r.showGradient == Some(GradientOf(cover) != Some(true))
  {
    Spread(cover).(url := previewUrl, showGradient := Some(Negate(GradientOf(cover))))
  }

  /**
   * The toggle flips what is drawn only when the flag is stored: an unset flag is drawn
   * as on and toggles to true, so the gradient stays on.
   */
  lemma ToggleFlipsShownIffSet(cover: Option<CoverPhoto>, previewUrl: Option<string>)
    ensures GradientShown(Some(ToggleGradient(cover, previewUrl))) == !GradientShown(cover) <==> GradientOf(cover).Some?
    ensures GradientOf(cover).None? ==> GradientShown(cover) && GradientShown(Some(ToggleGradient(cover, previewUrl)))
  {
    var after := ToggleGradient(cover, previewUrl);
    match GradientOf(cover)
    case Some(b) =>
      assert after.showGradient == Some(!b);
    case None =>
      assert after.showGradient == Some(true);
  }

  /** `getPositionClass`: the CSS class for a position, `object-center` for any unknown one. */
  function PositionClass(position: string): (c: string)
    ensures position == "top" ==> c == "object-top"
    ensures position == "bottom" ==> c == "object-bottom"
    ensures position != "top" && position != "bottom" ==> c == "object-center"
  {
    if position == "top" then "object-top"
    else if position == "center" then "object-center"
    else if position == "bottom" then "object-bottom"
    else "object-center"
  }
}
