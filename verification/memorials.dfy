/**
 * The Memorial document: owner, managers with their permission flags, the URL slug,
 * the publication status and the content; the permission resolver (`canEdit`,
 * `canModerate`) and the slug alphabet of `generateUniqueUrl`.
 */
module Memorials {
  import opened Wrappers
  import opened Content
  import Collections

  /** The `status` enum; new memorials are unpublished. */
  datatype Status = Public | Private | Unpublished

  const DefaultStatus := Unpublished

  /** The `status` enum of the schema. */
  function ParseStatus(s: string): (r: Option<Status>)
    ensures r == Some(Public) <==> s == "public"
    ensures r == Some(Private) <==> s == "private"
    ensures r == Some(Unpublished) <==> s == "unpublished"
  {
    if s == "public" then Some(Public)
    else if s == "private" then Some(Private)
    else if s == "unpublished" then Some(Unpublished)
    else None
  }

  /** The `profilePhoto.shape` enum of the schema. */
  predicate IsPhotoShape(s: string) {
    s == "circle" || s == "square" || s == "rounded-square" || s == "heart" || s == "oval"
  }

  /** The `coverPhoto.size` enum; an unset size passes validation. */
  predicate IsCoverSize(size: Option<string>) {
    size.None? || size.value in {"tall", "medium", "short"}
  }

  /** The `coverPhoto.position` enum; an unset position passes validation. */
  predicate IsCoverPosition(position: Option<string>) {
    position.None? || position.value in {"top", "center", "bottom"}
  }

  /** The `gallery.displayStyle` enum; an unset style passes validation. */
  predicate IsDisplayStyle(style: Option<string>) {
    style.None? || style.value in {"grid", "carousel"}
  }

  /** The cover photo a new memorial gets from the schema defaults: medium, centred, with gradient. */
  const DefaultCover := CoverPhoto(None, Some("medium"), Some("center"), Some(true))

  /** A new memorial's gallery: no photos or videos, the grid style, shown. */
  const DefaultGallery := Gallery(Some([]), Some([]), Some("grid"), Some(true))

  /** A new memorial's timeline: no events, shown. */
  const DefaultTimeline := Timeline(Some([]), Some(true), None)

  /** A new memorial's theme: no template choices, the default header layout. */
  const DefaultTheme := Theme(None, None, None, "default")

  datatype Permissions = Permissions(canEdit: bool, canModerate: bool, canManageGallery: bool)

  /** Every permission flag of a manager entry defaults to true. */
  const DefaultPermissions := Permissions(true, true, true)

  /** An invitation to co-manage; it grants nothing until `acceptedAt` is set. */
  datatype Manager = Manager(user: nat, permissions: Permissions, invitedAt: Option<int>, acceptedAt: Option<int>)

  datatype Memorial = Memorial(
    owner: nat,
    managers: seq<Manager>,
    url: string,
    status: Status,
    fullName: string,
    birthDate: Option<int>,
    deathDate: Option<int>,
    showDates: bool,
    profilePhoto: ProfilePhoto,
    coverPhoto: Option<CoverPhoto>,
    biography: Biography,
    gallery: Gallery,
    timeline: Timeline,
    familyMembers: seq<FamilyMember>,
    showFamily: bool,
    favorites: seq<Favorite>,
    showFavorites: bool,
    theme: Theme,
    viewCount: int,
    inTrash: bool,
    trashedAt: Option<int>,
    createdAt: int)

  /** The `find` condition: an entry for this user whose invitation was accepted. */
  predicate AcceptedEntry(m: Manager, userId: nat) {
    m.user == userId && m.acceptedAt.Some?
  }

  /** Entry `i` is the one `find` returns: the first accepted entry for the user. */
  ghost predicate DecidingEntry(managers: seq<Manager>, userId: nat, i: int) {
    0 <= i < |managers| && AcceptedEntry(managers[i], userId)
    && forall j :: 0 <= j < i ==> !AcceptedEntry(managers[j], userId)
  }

  /** `managers.find(...)`: the first accepted entry for the user. */
  function ActiveEntry(memorial: Memorial, userId: nat): (r: Option<Manager>)
    ensures r.None? <==> forall j :: 0 <= j < |memorial.managers| ==> !AcceptedEntry(memorial.managers[j], userId)
    ensures r.Some? ==> exists i :: DecidingEntry(memorial.managers, userId, i) && r.value == memorial.managers[i]
  {
    match Collections.First(memorial.managers, (m: Manager) => AcceptedEntry(m, userId))
    case None => None
    case Some(i) => Some(memorial.managers[i])
  }

  /** `canEdit`: the owner, or the first accepted manager entry for the user with `canEdit` set. */
  function CanEdit(memorial: Memorial, userId: nat): (r: bool)
    ensures memorial.owner == userId ==> r
    ensures memorial.owner != userId ==>
              (r <==> exists i :: DecidingEntry(memorial.managers, userId, i) && memorial.managers[i].permissions.canEdit)
  {
    if memorial.owner == userId then true
    else
      var entry := ActiveEntry(memorial, userId);
      entry.Some? && entry.value.permissions.canEdit
  }

  /** `canModerate`: the same resolution as `canEdit`, reading the `canModerate` flag. */
  function CanModerate(memorial: Memorial, userId: nat): (r: bool)
    ensures memorial.owner == userId ==> r
    ensures memorial.owner != userId ==>
              (r <==> exists i :: DecidingEntry(memorial.managers, userId, i) && memorial.managers[i].permissions.canModerate)
  {
    if memorial.owner == userId then true
    else
      var entry := ActiveEntry(memorial, userId);
      entry.Some? && entry.value.permissions.canModerate
  }

  /** A user who is not the owner and whose entries are all still pending can neither edit nor moderate. */
  lemma PendingInviteGrantsNothing(memorial: Memorial, userId: nat)
    requires memorial.owner != userId
    requires forall j :: 0 <= j < |memorial.managers| && memorial.managers[j].user == userId ==> memorial.managers[j].acceptedAt.None?
    ensures !CanEdit(memorial, userId) && !CanModerate(memorial, userId)
  {
  }

  /**
   * A manager whose deciding (first accepted) entry carries the default permissions can
   * edit and moderate, whatever other entries the list holds.
   */
  lemma AcceptedDefaultManagerMayEditAndModerate(memorial: Memorial, userId: nat, i: nat)
    requires DecidingEntry(memorial.managers, userId, i) && memorial.managers[i].permissions == DefaultPermissions
    ensures CanEdit(memorial, userId) && CanModerate(memorial, userId)
  {
  }

  /** Entries after the first accepted entry for the user do not change either answer. */
  lemma {:induction false} LaterEntriesIgnored(memorial: Memorial, userId: nat, later: seq<Manager>)
    requires exists i :: 0 <= i < |memorial.managers| && AcceptedEntry(memorial.managers[i], userId)
    ensures CanEdit(memorial.(managers := memorial.managers + later), userId) == CanEdit(memorial, userId)
    ensures CanModerate(memorial.(managers := memorial.managers + later), userId) == CanModerate(memorial, userId)
  {
    var ms := memorial.managers;
    var extended := memorial.(managers := ms + later);
    var i :| 0 <= i < |ms| && AcceptedEntry(ms[i], userId);
    var k := Collections.First(ms, (m: Manager) => AcceptedEntry(m, userId));
    var k' := Collections.First(ms + later, (m: Manager) => AcceptedEntry(m, userId));
    assert k.Some? && k.value <= i;
    assert (ms + later)[k.value] == ms[k.value];
    assert forall j :: 0 <= j < k.value ==> (ms + later)[j] == ms[j];
    assert k' == k;
  }

  /** The characters `generateUniqueUrl` draws from. */
  const UrlAlphabet := "abcdefghijklmnopqrstuvwxyz0123456789"

  const DefaultUrlLength := 8

  /** Each draw is an index into the alphabet, as `Math.floor(Math.random() * chars.length)` is. */
  predicate ValidDraws(draws: seq<nat>) {
    forall k :: 0 <= k < |draws| ==> draws[k] < |UrlAlphabet|
  }

  /** The slug spelled by a sequence of draws. */
  function Spell(draws: seq<nat>): (url: string)
    requires ValidDraws(draws)
    ensures |url| == |draws|
  {
    seq(|draws|, k requires 0 <= k < |draws| => UrlAlphabet[draws[k]])
  }

  /** Every character of a spelled slug is a lower-case ASCII letter or a digit. */
  lemma SpellAlphabet(draws: seq<nat>)
    requires ValidDraws(draws)
    ensures forall k :: 0 <= k < |draws| ==> Spell(draws)[k] in UrlAlphabet
    ensures forall k :: 0 <= k < |draws| ==> 'a' <= Spell(draws)[k] <= 'z' || '0' <= Spell(draws)[k] <= '9'
  {
    forall k | 0 <= k < |draws|
      ensures 'a' <= Spell(draws)[k] <= 'z' || '0' <= Spell(draws)[k] <= '9'
    {
      var d := draws[k];
      assert Spell(draws)[k] == UrlAlphabet[d];
    }
  }

  /** Spelling one more draw appends one character. */
  lemma SpellExtend(draws: seq<nat>, i: nat)
    requires ValidDraws(draws) && i < |draws|
    ensures ValidDraws(draws[..i]) && ValidDraws(draws[..i + 1])
    ensures Spell(draws[..i + 1]) == Spell(draws[..i]) + [UrlAlphabet[draws[i]]]
  {
  }
}
