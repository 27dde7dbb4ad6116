/**
 * The memorial's content sub-documents, as the editors pass them to `onChange` and as the
 * Memorial schema stores them. A field the editors read with a fallback (`x || d`,
 * `x !== false`) is optional here, because the object they receive may lack it.
 */
module Content {
  import opened Wrappers

  /** An embedded YouTube or Vimeo video of the gallery. */
  datatype Video = Video(
    url: string,          // the embed URL
    platform: string,     // 'youtube' or 'vimeo'
    thumbnail: string,
    caption: string,
    autoplay: bool,
    order: int,
    addedAt: string)      // ISO date string

  /** An uploaded gallery photo (the image itself is a data URL). */
  datatype Photo = Photo(url: string, thumbnail: string, caption: string, order: int, uploadedAt: string)

  datatype Gallery = Gallery(
    photos: Option<seq<Photo>>,
    videos: Option<seq<Video>>,
    displayStyle: Option<string>,   // 'grid' or 'carousel'
    showGallery: Option<bool>)

  /** A life event; `date` is the text of a date input. */
  datatype TimelineEvent = TimelineEvent(
    date: string, yearOnly: bool, title: string, description: string, photoRef: string, order: int)

  datatype Timeline = Timeline(
    events: Option<seq<TimelineEvent>>,
    showTimeline: Option<bool>,
    orientation: Option<string>)    // 'vertical' or 'horizontal'

  datatype FamilyMember = FamilyMember(name: string, relationship: string, description: string, order: int)

  datatype Favorite = Favorite(category: string, icon: string, content: string, order: int)

  /** The banner image with its display settings; `url` is a data URL. */
  datatype CoverPhoto = CoverPhoto(
    url: Option<string>,
    size: Option<string>,           // 'tall', 'medium' or 'short'
    position: Option<string>,       // 'top', 'center' or 'bottom'
    showGradient: Option<bool>)

  datatype ProfilePhoto = ProfilePhoto(url: Option<string>, shape: string)

  datatype Biography = Biography(content: Option<string>, showBiography: bool)

  datatype Theme = Theme(
    accentColor: Option<string>, headingFont: Option<string>, bodyFont: Option<string>, headerLayout: string)

  /** An editor's answer to a user action: the new value handed to `onChange`, or the message shown instead. */
  datatype Edit<+T> = Changed(value: T) | Refused(message: string)
}
