/**
 * The memorial routes under /api/memorials: create, my-memorials, edit fetch, public
 * fetch by slug, update and delete (move to trash). A memorial's id is its position in
 * the store. `caller` is the user `protect` admitted; the public fetch takes the
 * requester as an optional argument.
 */
module MemorialRoutes {
  import opened Wrappers
  import opened Content
  import opened Memorials
  import opened Http
  import Collections
  import Store
  import opened MemorialPatch
  import PatchMerge

  // ------------------------------------------------------------------ create

  /** The profile photo object of a create request. */
  datatype PhotoRequest = PhotoRequest(url: Option<string>, shape: Option<string>)

  /** The body of POST /api/memorials. */
  datatype CreateRequest = CreateRequest(
    fullName: Option<string>,
    birthDate: Option<int>,
    deathDate: Option<int>,
    biography: Option<string>,
    profilePhoto: Option<PhotoRequest>,
    showDates: Option<bool>,
    status: Option<string>)

  /** `profilePhoto || {}` with the schema default shape; absent when the shape fails the enum. */
  function RequestedPhoto(p: Option<PhotoRequest>): (r: Option<ProfilePhoto>)
    ensures r.Some? ==> IsPhotoShape(r.value.shape)
    ensures p.None? ==> r == Some(ProfilePhoto(None, "circle"))
    ensures p.Some? ==> (r.None? <==> p.value.shape.Some? && !IsPhotoShape(p.value.shape.value))
    ensures p.Some? && r.Some? ==> r.value.url == p.value.url
  {
    match p
    case None => Some(ProfilePhoto(None, "circle"))
    case Some(PhotoRequest(url, shape)) =>
      match shape
      case None => Some(ProfilePhoto(url, "circle"))
      case Some(s) => if IsPhotoShape(s) then Some(ProfilePhoto(url, s)) else None
  }

  /**
   * The document `Memorial.create` saves for a request, with the schema defaults for
   * every field the route does not set; absent when schema validation fails (a missing
   * or empty `fullName`, a status or shape outside its enum).
   */
  function NewMemorial(owner: nat, url: string, req: CreateRequest, now: int): (r: Option<Memorial>)
    ensures r.Some? <==> CreateValid(req)
    ensures r.Some? ==>
              && r.value.owner == owner && r.value.url == url && r.value.managers == []
              && r.value.fullName == req.fullName.value
              && (req.status.None? || req.status == Some("") ==> r.value.status == DefaultStatus)
              && (req.status.Some? && req.status.value != "" ==> r.value.status == ParseStatus(req.status.value).value)
              && r.value.profilePhoto == RequestedPhoto(req.profilePhoto).value
              && r.value.birthDate == req.birthDate && r.value.deathDate == req.deathDate
              && r.value.showDates == ShownOn(req.showDates)
              && r.value.biography == Biography(req.biography, true)
              && r.value.coverPhoto == Some(DefaultCover) && r.value.gallery == DefaultGallery
              && r.value.timeline == DefaultTimeline && r.value.theme == DefaultTheme
              && r.value.familyMembers == [] && r.value.showFamily
              && r.value.favorites == [] && r.value.showFavorites
              && r.value.viewCount == 0 && !r.value.inTrash && r.value.trashedAt.None?
              && r.value.createdAt == now
  {
    match (req.fullName, ParseStatus(OrDefault(req.status, "unpublished")), RequestedPhoto(req.profilePhoto))
    case (Some(name), Some(status), Some(photo)) =>
      if name == "" then None
      else
        Some(Memorial(
          owner, [], url, status, name, req.birthDate, req.deathDate, ShownOn(req.showDates), photo,
          Some(DefaultCover),
          Biography(req.biography, true),
          DefaultGallery,
          DefaultTimeline,
          [], true, [], true,
          DefaultTheme,
          0, false, None, now))
    case _ => None
  }

  /** What `Memorial.create` validates: a non-empty name, a status and a photo shape from their enums. */
  predicate CreateValid(req: CreateRequest) {
    && req.fullName.Some? && req.fullName.value != ""
    && ParseStatus(OrDefault(req.status, "unpublished")).Some?
    && RequestedPhoto(req.profilePhoto).Some?
  }

  /** A memorial of `owner` that is not in the trash: what the slot quota counts. */
  predicate Live(m: Memorial, owner: nat) {
    m.owner == owner && !m.inTrash
  }

  /** `countDocuments({ owner, inTrash: false })`. */
  function LiveCount(memorials: seq<Memorial>, owner: nat): nat {
    Collections.Count(memorials, (m: Memorial) => Live(m, owner))
  }

  /**
   * POST /api/memorials. Refused with 400 when the caller's memorials outside the
   * trash already fill their slots; otherwise a fresh slug is drawn and the memorial
   * is created, so a successful create never takes the caller over their quota.
   * `attempts` are the slug draws; when all of them collide the create fails.
   */
  method Create(db: Store.Db, caller: nat, req: CreateRequest, attempts: seq<seq<nat>>, now: int)
    returns (res: Response<Memorial>)
    requires db.Valid() && caller < |db.users|
    requires forall k :: 0 <= k < |attempts| ==> |attempts[k]| == DefaultUrlLength && ValidDraws(attempts[k])
    modifies db
    ensures db.Valid() && db.users == old(db.users)
    ensures res == Error(400, "No available memorial slots") <==>
              LiveCount(old(db.memorials), caller) >= db.users[caller].memorialSlots
    ensures res.Ok? <==>
              && LiveCount(old(db.memorials), caller) < db.users[caller].memorialSlots
              && (exists k :: 0 <= k < |attempts| && !Store.UrlTaken(old(db.memorials), Spell(attempts[k])))
              && CreateValid(req)
    ensures res.Error? ==> db.memorials == old(db.memorials)
    ensures res.Ok? ==>
              && res.status == 201
              && db.memorials == old(db.memorials) + [res.body]
              && LiveCount(db.memorials, caller) == LiveCount(old(db.memorials), caller) + 1
              && LiveCount(db.memorials, caller) <= db.users[caller].memorialSlots
              && |res.body.url| == DefaultUrlLength && !Store.UrlTaken(old(db.memorials), res.body.url)
              && (exists k :: 0 <= k < |attempts| && res.body.url == Spell(attempts[k])
                              && forall j :: 0 <= j < k ==> Store.UrlTaken(old(db.memorials), Spell(attempts[j])))
              && NewMemorial(caller, res.body.url, req, now) == Some(res.body)
    ensures res.Error? && res.status != 400 ==> res == Error(500, "Failed to create memorial")
  {
    if LiveCount(db.memorials, caller) >= db.users[caller].memorialSlots {
      return Error(400, "No available memorial slots");
    }
    var url := db.GenerateUniqueUrl(DefaultUrlLength, attempts);
    if url.None? {
      return Error(500, "Failed to create memorial");
    }
    var created := NewMemorial(caller, url.value, req, now);
    if created.None? {
      return Error(500, "Failed to create memorial");
    }
    Collections.CountAppend(db.memorials, created.value, (m: Memorial) => Live(m, caller));
    db.InsertMemorial(created.value);
    res := Ok(201, created.value);
  }

  // ------------------------------------------------------------ my-memorials

  /** Newest `createdAt` first. */
  predicate NewestFirst(s: seq<Memorial>) {
    forall i, j :: 0 <= i < j < |s| ==> s[i].createdAt >= s[j].createdAt
  }

  /** Place `m` in front of the first memorial that is not newer. */
  function InsertByNewest(m: Memorial, s: seq<Memorial>): (r: seq<Memorial>)
    ensures multiset(r) == multiset(s) + multiset{m}
  {
    if s == [] || m.createdAt >= s[0].createdAt then [m] + s
    else
      assert s == [s[0]] + s[1..];
      [s[0]] + InsertByNewest(m, s[1..])
  }

  /** Inserting into a newest-first list keeps it newest first. */
  lemma {:induction false} InsertKeepsNewestFirst(m: Memorial, s: seq<Memorial>)
    requires NewestFirst(s)
    ensures NewestFirst(InsertByNewest(m, s))
  {
    var r := InsertByNewest(m, s);
    if s == [] || m.createdAt >= s[0].createdAt {
      forall i, j | 0 <= i < j < |r|
        ensures r[i].createdAt >= r[j].createdAt
      {
        if i == 0 && j > 1 {
          assert r[j] == s[j - 1];
        }
      }
    } else {
      var t := InsertByNewest(m, s[1..]);
      InsertKeepsNewestFirst(m, s[1..]);
      assert r == [s[0]] + t;
      forall j | 0 <= j < |t|
        ensures s[0].createdAt >= t[j].createdAt
      {
        assert t[j] in multiset(t);
        if t[j] != m {
          assert t[j] in multiset(s[1..]);
          var k :| 0 <= k < |s[1..]| && s[1..][k] == t[j];
          assert s[k + 1] == t[j];
        }
      }
      forall i, j | 0 <= i < j < |r|
        ensures r[i].createdAt >= r[j].createdAt
      {
        if i == 0 {
          assert r[j] == t[j - 1];
        } else {
          assert r[i] == t[i - 1] && r[j] == t[j - 1];
        }
      }
    }
  }

  /** `.sort({ createdAt: -1 })`: the same memorials, newest first. */
  function SortByNewest(s: seq<Memorial>): (r: seq<Memorial>)
    ensures multiset(r) == multiset(s) && NewestFirst(r)
  {
    if s == [] then []
    else
      assert s == [s[0]] + s[1..];
      var rest := SortByNewest(s[1..]);
      InsertKeepsNewestFirst(s[0], rest);
      InsertByNewest(s[0], rest)
  }

  /** `find({ owner, inTrash: false })`. */
  function LiveMemorials(memorials: seq<Memorial>, owner: nat): seq<Memorial> {
    Collections.Filter(memorials, (m: Memorial) => Live(m, owner))
  }

  /**
   * GET /my-memorials: exactly the caller's memorials outside the trash, each as often
   * as it is stored, newest first.
   */
  function MyMemorials(memorials: seq<Memorial>, caller: nat): (r: seq<Memorial>)
    ensures NewestFirst(r)
    ensures multiset(r) == multiset(LiveMemorials(memorials, caller))
    ensures |r| == LiveCount(memorials, caller)
    ensures forall j :: 0 <= j < |r| ==> Live(r[j], caller) && r[j] in memorials
    ensures forall j :: 0 <= j < |memorials| && Live(memorials[j], caller) ==> memorials[j] in r
  {
    var live := LiveMemorials(memorials, caller);
    var r := SortByNewest(live);
    assert |r| == |live| by {
      assert |multiset(r)| == |multiset(live)|;
    }
    forall j | 0 <= j < |r|
      ensures Live(r[j], caller) && r[j] in memorials
    {
      assert r[j] in multiset(live);
    }
    forall j | 0 <= j < |memorials| && Live(memorials[j], caller)
      ensures memorials[j] in r
    {
      assert memorials[j] in multiset(live);
    }
    r
  }

  // ----------------------------------------------------------------- editing

  /** GET /edit/:id: 404 for an unknown id, 403 unless the caller may edit. Trashed memorials are included. */
  function EditFetch(memorials: seq<Memorial>, id: nat, caller: nat): (r: Response<Memorial>)
    ensures id >= |memorials| ==> r == Error(404, "Memorial not found")
    ensures r.Ok? <==> id < |memorials| && CanEdit(memorials[id], caller)
    ensures r.Ok? ==> r == Ok(200, memorials[id])
    ensures id < |memorials| && !CanEdit(memorials[id], caller) ==> r == Error(403, "Not authorized to edit this memorial")
  {
    if id >= |memorials| then Error(404, "Memorial not found")
    else if !CanEdit(memorials[id], caller) then Error(403, "Not authorized to edit this memorial")
    else Ok(200, memorials[id])
  }

  /** Only whitelisted fields change: the slug, owner, managers, theme, counters and trash state are kept. */
  lemma MergeKeepsProtected(m: Memorial, p: Patch)
    ensures var r := Merged(m, p);
            && r.url == m.url && r.owner == m.owner && r.managers == m.managers && r.theme == m.theme
            && r.viewCount == m.viewCount && r.inTrash == m.inTrash && r.trashedAt == m.trashedAt
            && r.createdAt == m.createdAt && r.biography.showBiography == m.biography.showBiography
  {
  }

  /**
   * PUT /:id: 404 for an unknown id, 403 unless the caller may edit; otherwise the
   * whitelisted fields the body defines are written one by one and the memorial is
   * saved, failing validation (500) when a written value breaks the schema.
   */
  method Update(db: Store.Db, id: nat, caller: nat, patch: Patch) returns (res: Response<Memorial>)
    requires db.Valid()
    modifies db
    ensures db.Valid() && db.users == old(db.users)
    ensures id >= |old(db.memorials)| ==> res == Error(404, "Memorial not found")
    ensures id < |old(db.memorials)| && !CanEdit(old(db.memorials)[id], caller) ==>
              res == Error(403, "Not authorized to edit this memorial")
    ensures res.Ok? <==> id < |old(db.memorials)| && CanEdit(old(db.memorials)[id], caller) && PatchValid(patch)
    ensures res.Ok? ==>
              && res == Ok(200, Merged(old(db.memorials)[id], patch))
              && db.memorials == old(db.memorials)[id := res.body]
              && res.body.url == old(db.memorials)[id].url && res.body.owner == old(db.memorials)[id].owner
              && res.body.managers == old(db.memorials)[id].managers && res.body.theme == old(db.memorials)[id].theme
              && res.body.viewCount == old(db.memorials)[id].viewCount && res.body.inTrash == old(db.memorials)[id].inTrash
              && res.body.trashedAt == old(db.memorials)[id].trashedAt && res.body.createdAt == old(db.memorials)[id].createdAt
    ensures res.Error? ==> db.memorials == old(db.memorials)
  {
    if id >= |db.memorials| {
      return Error(404, "Memorial not found");
    }
    var memorial := db.memorials[id];
    if !CanEdit(memorial, caller) {
      return Error(403, "Not authorized to edit this memorial");
    }
    ghost var original := memorial;
    for k := 0 to |AllowedUpdates|
      invariant memorial == Visited(original, patch, k)
      invariant unchanged(db)
    {
      memorial := ApplyField(memorial, AllowedUpdates[k], patch);
    }
    if !PatchValid(patch) {
      return Error(500, "Failed to update memorial");
    }
    PatchMerge.UpdateIsMerge(original, patch);
    MergeKeepsProtected(original, patch);
    db.SaveMemorial(id, memorial);
    res := Ok(200, memorial);
  }

  // -------------------------------------------------------------- public view

  /** The slug gate: an unpublished memorial is shown to its owner only; any other status to anyone. */
  predicate Visible(m: Memorial, requester: Option<nat>) {
    m.status != Unpublished || requester == Some(m.owner)
  }

  /** `findOne({ url })`. */
  function SlugHolder(memorials: seq<Memorial>, slug: string): (i: Option<nat>)
    ensures i.Some? ==> i.value < |memorials| && memorials[i.value].url == slug
    ensures i.None? <==> forall j :: 0 <= j < |memorials| ==> memorials[j].url != slug
  {
    Collections.First(memorials, (m: Memorial) => m.url == slug)
  }

  /**
   * GET /:url: 404 for an unknown slug and for an unpublished memorial the requester
   * does not own; otherwise the view count goes up by one and the memorial is returned.
   * The trash flag is not consulted.
   */
  method FetchBySlug(db: Store.Db, slug: string, requester: Option<nat>) returns (res: Response<Memorial>)
    requires db.Valid()
    modifies db
    ensures db.Valid() && db.users == old(db.users)
    ensures res.Error? ==> res == Error(404, "Memorial not found") && db.memorials == old(db.memorials)
    ensures res.Ok? <==> SlugHolder(old(db.memorials), slug).Some?
                         && Visible(old(db.memorials)[SlugHolder(old(db.memorials), slug).value], requester)
    ensures res.Ok? ==>
              var i := SlugHolder(old(db.memorials), slug).value;
              && res.body == old(db.memorials)[i].(viewCount := old(db.memorials)[i].viewCount + 1)
              && db.memorials == old(db.memorials)[i := res.body]
  {
    var found := SlugHolder(db.memorials, slug);
    if found.None? {
      return Error(404, "Memorial not found");
    }
    var i := found.value;
    var memorial := db.memorials[i];
    if !Visible(memorial, requester) {
      return Error(404, "Memorial not found");
    }
    memorial := memorial.(viewCount := memorial.viewCount + 1);
    db.SaveMemorial(i, memorial);
    res := Ok(200, memorial);
  }

  /** Editing rights do not open an unpublished memorial's public page: only the owner sees it. */
  lemma UnpublishedHiddenFromManagers(m: Memorial, manager: nat)
    requires m.status == Unpublished && manager != m.owner
    ensures !Visible(m, Some(manager)) && !Visible(m, None)
  {
  }

  // ------------------------------------------------------------------- trash

  /**
   * DELETE /:id: 404 for an unknown id, 403 for anyone but the owner (a manager who may
   * edit included); otherwise the memorial stays stored, marked as trashed at `now`.
   */
  method Trash(db: Store.Db, id: nat, caller: nat, now: int) returns (res: Response<string>)
    requires db.Valid()
    modifies db
    ensures db.Valid() && db.users == old(db.users)
    ensures id >= |old(db.memorials)| ==> res == Error(404, "Memorial not found")
    ensures res.Ok? <==> id < |old(db.memorials)| && old(db.memorials)[id].owner == caller
    ensures id < |old(db.memorials)| && old(db.memorials)[id].owner != caller ==>
              res == Error(403, "Not authorized to delete this memorial")
    ensures res.Error? ==> db.memorials == old(db.memorials)
    ensures res.Ok? ==>
              && res == Ok(200, "Memorial moved to trash")
              && db.memorials == old(db.memorials)[id := old(db.memorials)[id].(inTrash := true, trashedAt := Some(now))]
  {
    if id >= |db.memorials| {
      return Error(404, "Memorial not found");
    }
    var memorial := db.memorials[id];
    if memorial.owner != caller {
      return Error(403, "Not authorized to delete this memorial");
    }
    db.SaveMemorial(id, memorial.(inTrash := true, trashedAt := Some(now)));
    res := Ok(200, "Memorial moved to trash");
  }

  /**
   * A trashed memorial leaves the owner's list and frees a slot, but its public page
   * keeps answering while its status allows.
   */
  lemma {:induction false} TrashedLeavesListButStaysVisible(memorials: seq<Memorial>, id: nat, now: int, requester: Option<nat>)
    requires id < |memorials| && !memorials[id].inTrash
    ensures var trashed := memorials[id := memorials[id].(inTrash := true, trashedAt := Some(now))];
            && LiveCount(trashed, memorials[id].owner) + 1 == LiveCount(memorials, memorials[id].owner)
            && Visible(trashed[id], requester) == Visible(memorials[id], requester)
  {
    var owner := memorials[id].owner;
    TrashCount(memorials, id, now, owner);
  }

  /** Trashing a live memorial lowers its owner's live count by one. */
  lemma {:induction false} TrashCount(memorials: seq<Memorial>, id: nat, now: int, owner: nat)
    requires id < |memorials| && Live(memorials[id], owner)
    ensures LiveCount(memorials[id := memorials[id].(inTrash := true, trashedAt := Some(now))], owner) + 1
            == LiveCount(memorials, owner)
    decreases |memorials|
  {
    var trashed := memorials[id := memorials[id].(inTrash := true, trashedAt := Some(now))];
    assert trashed[1..] == if id == 0 then memorials[1..] else memorials[1..][id - 1 := memorials[id].(inTrash := true, trashedAt := Some(now))];
    if id > 0 {
      TrashCount(memorials[1..], id - 1, now, owner);
    }
  }
}
