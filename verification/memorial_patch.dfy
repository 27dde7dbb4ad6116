/**
 * The body of PUT /api/memorials/:id and what the handler's `forEach` over the field
 * whitelist does with it: each whitelisted field the body defines is written into the
 * memorial, the biography's `content` only, and nothing else.
 */
module MemorialPatch {
  import opened Wrappers
  import opened Content
  import opened Memorials

  /** The fields PUT /:id may write, in the order the handler visits them. */
  datatype Field =
    | FullName | BirthDate | DeathDate | BiographyText | ProfilePhotoField | CoverPhotoField | ShowDates
    | StatusField | GalleryField | TimelineField | FamilyMembers | ShowFamily | Favorites | ShowFavorites

  const AllowedUpdates: seq<Field> := [
    FullName, BirthDate, DeathDate, BiographyText, ProfilePhotoField, CoverPhotoField, ShowDates,
    StatusField, GalleryField, TimelineField, FamilyMembers, ShowFamily, Favorites, ShowFavorites]

  /**
   * The body of PUT /:id: one entry per whitelisted field, absent when the body leaves
   * it undefined. `null` is a value here (an inner `None`), as for a removed cover.
   */
  datatype Patch = Patch(
    fullName: Option<string>,
    birthDate: Option<Option<int>>,
    deathDate: Option<Option<int>>,
    biography: Option<Option<string>>,
    profilePhoto: Option<ProfilePhoto>,
    coverPhoto: Option<Option<CoverPhoto>>,
    showDates: Option<bool>,
    status: Option<string>,
    gallery: Option<Gallery>,
    timeline: Option<Timeline>,
    familyMembers: Option<seq<FamilyMember>>,
    showFamily: Option<bool>,
    favorites: Option<seq<Favorite>>,
    showFavorites: Option<bool>)

  /** What schema validation demands of the written fields when the document is saved. */
  predicate PatchValid(p: Patch) {
    && (p.fullName.Some? ==> p.fullName.value != "")
    && (p.status.Some? ==> ParseStatus(p.status.value).Some?)
    && (p.profilePhoto.Some? ==> IsPhotoShape(p.profilePhoto.value.shape))
    && (p.coverPhoto.Some? && p.coverPhoto.value.Some? ==>
          IsCoverSize(p.coverPhoto.value.value.size) && IsCoverPosition(p.coverPhoto.value.value.position))
    && (p.gallery.Some? ==> IsDisplayStyle(p.gallery.value.displayStyle))
  }

  /** A timeline as the schema stores it: `orientation` is not a schema path and is dropped. */
  function StoredTimeline(t: Timeline): Timeline {
    t.(orientation := None)
  }

  /** The status after the update: a valid status string in the body replaces it. */
  function UpdatedStatus(given: Option<string>, current: Status): Status {
    if given.Some? && ParseStatus(given.value).Some? then ParseStatus(given.value).value else current
  }

  /** The timeline after the update: one in the body replaces it, as the schema stores it. */
  function UpdatedTimeline(given: Option<Timeline>, current: Timeline): Timeline {
    if given.Some? then StoredTimeline(given.value) else current
  }

  /** One step of the handler's `forEach`: write `field` when the body defines it. */
  function ApplyField(m: Memorial, field: Field, p: Patch): Memorial
  {
    match field
    case FullName => m.(fullName := p.fullName.GetOr(m.fullName))
    case BirthDate => m.(birthDate := p.birthDate.GetOr(m.birthDate))
    case DeathDate => m.(deathDate := p.deathDate.GetOr(m.deathDate))
    case BiographyText => m.(biography := m.biography.(content := p.biography.GetOr(m.biography.content)))
    case ProfilePhotoField => m.(profilePhoto := p.profilePhoto.GetOr(m.profilePhoto))
    case CoverPhotoField => m.(coverPhoto := p.coverPhoto.GetOr(m.coverPhoto))
    case ShowDates => m.(showDates := p.showDates.GetOr(m.showDates))
    case StatusField => m.(status := UpdatedStatus(p.status, m.status))
    case GalleryField => m.(gallery := p.gallery.GetOr(m.gallery))
    case TimelineField => m.(timeline := UpdatedTimeline(p.timeline, m.timeline))
    case FamilyMembers => m.(familyMembers := p.familyMembers.GetOr(m.familyMembers))
    case ShowFamily => m.(showFamily := p.showFamily.GetOr(m.showFamily))
    case Favorites => m.(favorites := p.favorites.GetOr(m.favorites))
    case ShowFavorites => m.(showFavorites := p.showFavorites.GetOr(m.showFavorites))
  }

  /** The memorial after the handler's `forEach` has visited the first `k` whitelisted fields. */
  function Visited(m: Memorial, p: Patch, k: nat): Memorial
    requires k <= |AllowedUpdates|
  {
    if k == 0 then m else ApplyField(Visited(m, p, k - 1), AllowedUpdates[k - 1], p)
  }

  /**
   * The update as a single record change: each whitelisted field the body defines is
   * taken from the body (only `content` for the biography, a timeline without
   * `orientation`); every other field is kept.
   */
  function Merged(m: Memorial, p: Patch): Memorial {
    m.(fullName := p.fullName.GetOr(m.fullName),
       birthDate := p.birthDate.GetOr(m.birthDate),
       deathDate := p.deathDate.GetOr(m.deathDate),
       biography := m.biography.(content := p.biography.GetOr(m.biography.content)),
       profilePhoto := p.profilePhoto.GetOr(m.profilePhoto),
       coverPhoto := p.coverPhoto.GetOr(m.coverPhoto),
       showDates := p.showDates.GetOr(m.showDates),
       status := UpdatedStatus(p.status, m.status),
       gallery := p.gallery.GetOr(m.gallery),
       timeline := UpdatedTimeline(p.timeline, m.timeline),
       familyMembers := p.familyMembers.GetOr(m.familyMembers),
       showFamily := p.showFamily.GetOr(m.showFamily),
       favorites := p.favorites.GetOr(m.favorites),
       showFavorites := p.showFavorites.GetOr(m.showFavorites))
  }
}
