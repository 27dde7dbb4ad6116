/**
 * The photo list of the gallery editor: remove a photo, edit a caption, and choose how
 * the gallery is laid out. The upload path is not part of this model.
 */
module GalleryEditor {
  import opened Wrappers
  import opened Content
  import Collections

  /** `gallery.photos || []`. */
  function Photos(g: Gallery): seq<Photo> {
    g.photos.GetOr([])
  }

  /** `gallery.displayStyle || 'grid'`. */
  function DisplayStyle(g: Gallery): (style: string)
    ensures g.displayStyle.None? || g.displayStyle == Some("") ==> style == "grid"
    ensures g.displayStyle.Some? && g.displayStyle.value != "" ==> style == g.displayStyle.value
  {
    OrDefault(g.displayStyle, "grid")
  }

  /** `handleRemovePhoto`: the photo at `index` is dropped; videos, layout and visibility are kept. */
  function RemovePhoto(g: Gallery, index: int): (r: Gallery)
    ensures r.videos == g.videos && r.displayStyle == g.displayStyle && r.showGallery == g.showGallery
    ensures 0 <= index < |Photos(g)| ==> Photos(r) == Photos(g)[..index] + Photos(g)[index + 1..]
    ensures !(0 <= index < |Photos(g)|) ==> Photos(r) == Photos(g)
  {
    g.(photos := Some(Collections.RemoveAt(Photos(g), index)))
  }

  function WithCaption(caption: string): Photo -> Photo {
    (p: Photo) => p.(caption := caption)
  }

  /** `handleCaptionChange`: only the caption of the photo at `index` changes. */
  function ChangeCaption(g: Gallery, index: int, caption: string): (r: Gallery)
    ensures r.videos == g.videos && r.displayStyle == g.displayStyle && r.showGallery == g.showGallery
    ensures |Photos(r)| == |Photos(g)|
    ensures forall j :: 0 <= j < |Photos(g)| && j != index ==> Photos(r)[j] == Photos(g)[j]
    ensures 0 <= index < |Photos(g)| ==> Photos(r)[index] == Photos(g)[index].(caption := caption)
  {
    g.(photos := Some(Collections.UpdateAt(Photos(g), index, WithCaption(caption))))
  }

  /** A caption edit at an index with no photo leaves the photos as they were. */
  lemma OutOfRangeCaptionKeepsPhotos(g: Gallery, index: int, caption: string)
    requires !(0 <= index < |Photos(g)|)
    ensures Photos(ChangeCaption(g, index, caption)) == Photos(g)
  {
    var r := ChangeCaption(g, index, caption);
    assert forall j :: 0 <= j < |Photos(g)| ==> Photos(r)[j] == Photos(g)[j];
  }

  /** `handleDisplayStyleChange`: only the layout changes. */
  function ChangeDisplayStyle(g: Gallery, style: string): (r: Gallery)
    ensures r == g.(displayStyle := Some(style))
    ensures style != "" ==> DisplayStyle(r) == style
    ensures Photos(r) == Photos(g)
  {
    g.(displayStyle := Some(style))
  }
}
