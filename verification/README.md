# In Memorial Of: accounts, memorial access and content editors

This is a Dafny model of the rules at the core of a memorial-website service. It has two halves.

**Backend.** An Express/Mongoose API that keeps users and memorials.

- Users register with an optional password and verify their email with a one-shot token.
- Users log in with a password or with a magic link. A magic link is a token that is valid for a limited time and a limited number of uses.
- Users can reset, change and (by confirmation email) change their email address.
- Each request passes a bearer-token gate.
- Memorials are created within a slot quota under a random 8-character slug.
- A memorial is edited by its owner or by accepted managers, and only whitelisted fields change.
- A memorial is shown publicly according to its status, and every view is counted.
- Only the owner can move a memorial to the trash.

**Frontend.** React editors that turn the memorial's old content into new content.

- videos: a YouTube/Vimeo URL parser, the player URL, add, remove and edit-at-index;
- timeline events, kept sorted by date;
- family members and favorites with category presets;
- gallery photos and the cover photo record;
- the rotation and crop-shape helpers of the photo cropper.

The store is the class `Store.Db`. Its fields are the user and memorial collections plus the environment settings the routes read. A document's id is its position in its collection. Route handlers are methods that change the store. Each handler's contract gives the full new store and the response, in terms of pure step functions (`MagicLoginStep`, `PasswordLogin`, `ApplyReset`, `Merged`, …). Lemmas prove the multi-request properties about those step functions.

Some things outside the system become parameters:

- `now`;
- the random tokens, and the random draws behind a slug;
- JWT verification, as a function from token to user id;
- date parsing in the timeline, as a function `dateValue` from date string to number.

A bcrypt hash is the free constructor `Hashed(secret)`.

## Model

| member | source | states |
|---|---|---|
| Users.NewUser | backend/models/User.js:4-83 | A new account has role user, no custom permissions, 0 memorial slots, no memorial cap, 20 photos per memorial, unverified email, 0 magic-link uses, no magic-link or reset token, active status, and no deletion or login time. |
| Users.Assigned | backend/models/User.js:12-15 | A password given in the request is stored as a plaintext secret; no password means none is stored. |
| Users.PreSave | backend/models/User.js:86-96 | Only the password can change. It is hashed when it was modified and is non-empty; an unmodified or empty password is kept. Whether a password exists is preserved. |
| Users.ComparePassword | backend/models/User.js:99-102 | Always false when no password is stored; true only when the stored hash is the hash of the candidate. |
| Users.PasswordMatchesOnlyOriginal | backend/models/User.js:86-102 | After a password p is set and saved, a candidate matches iff p is non-empty and the candidate is p. |
| Users.HasPermission | backend/models/User.js:105-108 | Admins hold every permission; anyone else holds exactly the permissions listed in their custom permissions. |
| Users.SoftDeleted | backend/models/User.js:111-115 | Status becomes deleted and `deletedAt` is now; no other field changes. |
| Users.Restored | backend/models/User.js:118-122 | Status becomes active and `deletedAt` is cleared; no other field changes. |
| Users.RestoreUndoesSoftDelete | backend/models/User.js:111-122 | Restore after soft delete gives an active account with no deletion time, and the original account when that is what it was. |
| Memorials.ParseStatus | backend/models/Memorial.js:27-31 | Exactly "public", "private" and "unpublished" are statuses; anything else fails validation. |
| Memorials.ActiveEntry | backend/models/Memorial.js:219-221 | The deciding manager entry is the first one that names the user and is accepted; there is none iff no entry is both. |
| Memorials.CanEdit | backend/models/Memorial.js:216-224 | The owner can always edit. Anyone else can edit iff their first accepted manager entry has `canEdit`. |
| Memorials.CanModerate | backend/models/Memorial.js:227-235 | The owner can always moderate. Anyone else can moderate iff their first accepted manager entry has `canModerate`. |
| Memorials.PendingInviteGrantsNothing | backend/models/Memorial.js:219-223 | A non-owner whose entries all lack `acceptedAt` can neither edit nor moderate. |
| Memorials.AcceptedDefaultManagerMayEditAndModerate | backend/models/Memorial.js:14-18 | A user whose deciding (first accepted) manager entry has the default permission flags can edit and moderate, whatever other entries the list holds. |
| Memorials.LaterEntriesIgnored | backend/models/Memorial.js:219-221 | Once a user has an accepted entry, appending more entries changes neither answer. |
| Memorials.Spell | backend/models/Memorial.js:205-208 | A slug spelled from n draws has n characters. |
| Memorials.SpellAlphabet | backend/models/Memorial.js:200-206 | Every slug character is a lower-case letter or a digit. |
| Store.SpellCandidate | backend/models/Memorial.js:204-207 | The character-by-character loop builds exactly the slug spelled by the draws. |
| Store.Db.GenerateUniqueUrl | backend/models/Memorial.js:199-213 | The result has the requested length and uses only letters and digits. It is the first attempt that no stored memorial uses, and every earlier attempt collided. It is absent only when every attempt collided. |
| Store.Db.constructor | backend/models/User.js:5-11 | An empty store satisfies the store invariant: unique emails, unique slugs, no plaintext passwords, owners that exist. |
| Store.Db.SaveUser | backend/models/User.js:86-96 | Replacing a user whose email is unchanged and whose password is not plaintext keeps the store invariant and changes only that user. |
| Store.Db.InsertUser | backend/models/User.js:5-11 | Appending a user with a fresh email keeps the store invariant. |
| Store.Db.SaveMemorial | backend/models/Memorial.js:22-26 | Replacing a memorial with the same slug and owner keeps the invariant and changes only that memorial. |
| Store.Db.InsertMemorial | backend/models/Memorial.js:22-26 | Appending a memorial of an existing user under an unused slug keeps the invariant. |
| AuthMiddleware.BearerToken | backend/middleware/auth.js:9-15 | A token is found only in a header that starts with "Bearer", as its second space-separated piece, and only when that piece is non-empty. |
| AuthMiddleware.Protect | backend/middleware/auth.js:5-33 | Every refusal is a 401, and "no token" when no bearer token is found. The request proceeds iff the token verifies to an existing user whose account is active, and then carries that user's id. |
| AuthMiddleware.RequireAdmin | backend/middleware/auth.js:36-42 | Proceeds iff a user is present with role admin; otherwise a 403 "Admin access required". |
| AuthMiddleware.RequirePermission | backend/middleware/auth.js:45-53 | Proceeds iff a user is present and holds the permission (always for admins); otherwise a 403 "Insufficient permissions". |
| AuthMiddleware.OptionalAuth | backend/middleware/auth.js:56-70 | Always proceeds. A user is attached iff a bearer token verifies to an existing user. |
| AuthMiddleware.OptionalAuthIgnoresStatus | backend/middleware/auth.js:17-32 | For a deactivated user with a valid token, `protect` refuses with "Account is not active", while optional auth still attaches the user. |
| AuthRoutes.EnvIntOr | backend/routes/auth.js:112-113 | An environment setting is its parsed value when present and non-zero (the `||` fallback), and the default otherwise. |
| AuthRoutes.AccountWithEmail | backend/routes/auth.js:23-26 | Finds the stored user with the normalised email; absent iff no user has it. |
| AuthRoutes.ActiveAccount | backend/routes/auth.js:106-109 | Finds the active user with the normalised email; absent iff no active user has it. |
| AuthRoutes.RegisteredUser | backend/routes/auth.js:28-35 | The new account has a normalised email, a trimmed name, the fresh verification token, and an unverified, active status. Its password is hashed, and it has one iff a non-empty password was given. |
| AuthRoutes.Register | backend/routes/auth.js:19-62 | An existing email gives a 400 "User already exists" and no change. A blank email or name fails validation with no change. Otherwise exactly the registered user is appended and the reply is a 201, carrying the token only in development. |
| AuthRoutes.Verified | backend/routes/auth.js:76-79 | Sets the email verified and clears the token; nothing else changes. |
| AuthRoutes.VerificationQueryAsWritten | backend/routes/auth.js:72-74 | As written: finds a user whose verification token equals the request's, and a missing token equals an unset one. |
| AuthRoutes.MissingTokenFindsVerifiedUserAsWritten | backend/routes/auth.js:70-79 | As written, a request without a token matches an account that has already registered and verified. |
| AuthRoutes.HolderOfVerificationToken | backend/routes/auth.js:72-74 | Corrected: a missing token matches no one. Otherwise it finds the user holding exactly this token, and is absent iff no one does. |
| AuthRoutes.VerifiedUserNeverMatched | backend/routes/auth.js:72-79 | Corrected: a user without a pending verification token is never matched, so verify-email cannot sign them in. |
| AuthRoutes.VerifyEmail | backend/routes/auth.js:68-96 | A missing or unknown token gives a 400 and no change (the corrected lookup). Otherwise only the holder is marked verified and its token cleared, and the holder is signed in. |
| AuthRoutes.VerificationTokenSingleUse | backend/routes/auth.js:72-79 | After a token is used, no user holds it, so a second attempt fails. |
| AuthRoutes.IssueMagicLink | backend/routes/auth.js:111-118 | Sets the new token and expiry, resets the use count to 0, and changes nothing else. |
| AuthRoutes.MagicLoginStep | backend/routes/auth.js:155-175 | Refuses with 400 unless the token matches an active holder before expiry and the uses are below the maximum. On success the count goes up by exactly one, and the token and expiry are cleared iff the count reaches the maximum. |
| AuthRoutes.ReplayCountsUses | backend/routes/auth.js:165-175 | Any sequence of logins within the expiry and within the use budget succeeds, and adds its length to the use count. |
| AuthRoutes.MagicLinkAllowsExactlyMaxUses | backend/routes/auth.js:111-118 | A fresh link allows exactly `maxUses` logins, and the next attempt is refused. |
| AuthRoutes.ExpiredMagicLinkRefused | backend/routes/auth.js:155-163 | At or after the expiry, the login is refused with "Invalid or expired magic link". |
| AuthRoutes.NewMagicLinkReplacesOld | backend/routes/auth.js:111-118 | Issuing a new link makes every other token fail, and restarts the count at 0. |
| AuthRoutes.MagicLinkReplyAsWritten | backend/routes/auth.js:136-141 | As written: the development note is present iff the account exists, in every environment. |
| AuthRoutes.MagicLinkReplyAsWrittenRevealsAccount | backend/routes/auth.js:136-141 | As written, a production reply differs between an existing and an absent account. |
| AuthRoutes.MagicLinkReply | backend/routes/auth.js:106-109 | Corrected: the note and the token are present only for an existing account in development. |
| AuthRoutes.MagicLinkReplyHidesAccount | backend/routes/auth.js:106-109 | Corrected: in production the reply is the same whether or not the account exists. |
| AuthRoutes.RequestMagicLink | backend/routes/auth.js:102-145 | Always a 200 with the (corrected) reply. Without an active account nothing changes. With one, only that user gets a new link expiring after the configured window. |
| AuthRoutes.MagicLinkHolder | backend/routes/auth.js:155-160 | Finds a user for whom the token matches now; absent iff none. |
| AuthRoutes.MagicLogin | backend/routes/auth.js:151-193 | No matching holder gives a 400 and no change. Otherwise the result is exactly one login step on the holder, stored only on success. |
| AuthRoutes.PasswordLogin | backend/routes/auth.js:203-224 | Checks in order. No stored password gives a 400 passwordless. A missing candidate gives a 500, because the comparison throws. A wrong password gives a 401 "Invalid credentials", even when the email is unverified. Only after the password matched does an unverified email give a 401 "Please verify your email first". Success iff the password matches and the email is verified; it updates `lastLogin` and nothing else. |
| AuthRoutes.Login | backend/routes/auth.js:199-241 | Without an active account, a 401 invalid credentials and no change. Otherwise the password-login decision for that account, stored only on success. |
| AuthRoutes.RegisterVerifyLogin | backend/routes/auth.js:19-241 | A user who registered with password p and verified their email logs in with p; a passwordless one is refused with the passwordless answer. |
| AuthRoutes.IssueResetToken | backend/routes/auth.js:251-258 | Sets the reset token with an expiry one hour after now; nothing else changes. |
| AuthRoutes.ApplyReset | backend/routes/auth.js:295-300 | Sets the (hashed) new password and clears the reset token and expiry; nothing else changes. |
| AuthRoutes.ResetTokenWindow | backend/routes/auth.js:251-258 | An issued token matches exactly while now is before issue time plus one hour. |
| AuthRoutes.ResetTokenSingleUse | backend/routes/auth.js:289-300 | After a reset no token matches any more, and only the new password is accepted. |
| AuthRoutes.ForgotPassword | backend/routes/auth.js:247-279 | Always the same 200 reply. Without an active account nothing changes; with one, only that user gets a reset token. |
| AuthRoutes.ResetTokenHolder | backend/routes/auth.js:289-293 | Finds a user whose reset token matches now; absent iff none. |
| AuthRoutes.ResetPassword | backend/routes/auth.js:285-307 | An invalid or expired token gives a 400 and no change. Otherwise only the holder's password is reset. |
| AuthRoutes.ChangePasswordStep | backend/routes/auth.js:331-343 | Succeeds iff the account has no password or the current password matches; a wrong current password gives a 401 "Current password is incorrect". On success only the password changes: it is hashed, and exists iff a non-empty new one was given. |
| AuthRoutes.ChangedPasswordIsTheOnlyOne | backend/routes/auth.js:331-343 | After a successful change, only the new password is accepted. |
| AuthRoutes.ChangePassword | backend/routes/auth.js:327-347 | Applies the change step to the caller. A failure leaves the store as it was. |
| AuthRoutes.ChangeEmail | backend/routes/auth.js:353-390 | A 400 iff some user already has the normalised new email. Otherwise the confirmation reply, with the stored email unchanged. |
| MemorialRoutes.RequestedPhoto | backend/routes/memorials.js:30-31 | A missing photo becomes a circle with no url. A given shape outside the enum fails validation, and the url is kept. |
| MemorialRoutes.NewMemorial | backend/routes/memorials.js:26-36 | Validation passes iff there is a non-empty name, a valid status and a valid shape (`CreateValid`). The new memorial has no managers, and the given name, dates and profile photo (a circle by default). Its status is the given one, or unpublished when none is given. `showDates` is on unless false, and the biography is shown. The schema defaults (Memorial.js:44-184) give a medium, centred cover with gradient, an empty grid gallery, an empty shown timeline, empty shown family and favorites, and the default theme. It has no views, is not in the trash, and is created now. |
| MemorialRoutes.Create | backend/routes/memorials.js:9-43 | Refused with 400 iff the caller's memorials outside the trash fill their slots. Succeeds iff there is room, some slug attempt is free and the request validates. A success appends exactly the new memorial under the first free 8-character slug and never exceeds the quota. Other failures are 500s with no change. |
| MemorialRoutes.InsertByNewest | backend/routes/memorials.js:50-53 | Inserting keeps every memorial: the result is the input plus the new one, as a multiset. |
| MemorialRoutes.InsertKeepsNewestFirst | backend/routes/memorials.js:50-53 | Inserting into a newest-first list keeps it newest-first. |
| MemorialRoutes.SortByNewest | backend/routes/memorials.js:50-53 | The result is newest-first and a permutation of the input. |
| MemorialRoutes.MyMemorials | backend/routes/memorials.js:48-60 | Exactly the caller's memorials outside the trash, each once, newest `createdAt` first. |
| MemorialRoutes.EditFetch | backend/routes/memorials.js:65-83 | A 404 for an unknown id and a 403 unless the caller may edit; otherwise the memorial. |
| MemorialRoutes.MergeKeepsProtected | backend/routes/memorials.js:131-156 | An update never changes the slug, owner, managers, theme, view count, trash state, creation time or biography visibility. |
| PatchMerge.UpdateIsMerge | backend/routes/memorials.js:131-156 | Visiting the 14 whitelisted fields in order sets each field the body defines and keeps every other field. |
| MemorialRoutes.Update | backend/routes/memorials.js:117-165 | A 404 for an unknown id, and a 403 unless the caller may edit. A 500 with no change when the merged document fails validation (`PatchValid`): an empty name, or a status, photo shape, cover size, cover position or gallery style outside its enum (Memorial.js:27-99). Otherwise exactly the merged memorial is stored and returned, with its protected fields untouched. |
| MemorialRoutes.SlugHolder | backend/routes/memorials.js:90 | Finds the memorial with this slug; absent iff none has it. |
| MemorialRoutes.FetchBySlug | backend/routes/memorials.js:88-112 | A 404 with no change for an unknown slug, or for an unpublished memorial the requester does not own. Otherwise its view count goes up by exactly one, whatever its trash flag. |
| MemorialRoutes.UnpublishedHiddenFromManagers | backend/routes/memorials.js:96-101 | An unpublished memorial is hidden from anonymous visitors and from every user but its owner, managers included. |
| MemorialRoutes.Trash | backend/routes/memorials.js:170-192 | A 404 for an unknown id, and a 403 for anyone but the owner. Otherwise only that memorial is marked trashed at now and stays stored. |
| MemorialRoutes.TrashedLeavesListButStaysVisible | backend/routes/memorials.js:179-185 | Trashing frees one of the owner's slots and leaves the public visibility unchanged. |
| MemorialRoutes.TrashCount | backend/routes/memorials.js:14-17 | Trashing a live memorial lowers its owner's live count by exactly one. |
| VideoEmbed.DirectPrefix | frontend/src/components/VideoEmbedManager.js:17 | The alternative matched at a position is one of `youtube.com/watch?v=`, `youtu.be/` and `youtube.com/embed/`, and really occurs there. |
| VideoEmbed.DirectAlternativesExclusive | frontend/src/components/VideoEmbedManager.js:17 | No two of the three alternatives can occur at the same position. |
| VideoEmbed.LastValue | frontend/src/components/VideoEmbedManager.js:18 | Greedy `.*` picks the last `v=` followed by an id on the line. |
| VideoEmbed.Leftmost | frontend/src/components/VideoEmbedManager.js:16-22 | The match found is the leftmost one; absent iff the pattern matches nowhere. |
| VideoEmbed.Match | frontend/src/components/VideoEmbedManager.js:16-22 | A pattern yields an id iff it matches somewhere, and the id is never empty. |
| VideoEmbed.FirstYouTubeMatch | frontend/src/components/VideoEmbedManager.js:24-35 | The id comes from the first YouTube pattern that matches; absent iff none matches. |
| VideoEmbed.ParseVideoUrl | frontend/src/components/VideoEmbedManager.js:12-49 | Null iff no pattern matches. YouTube is chosen iff a YouTube pattern matches, so it is tried first. The embed URL is `https://www.youtube.com/embed/<id>` or `https://player.vimeo.com/video/<id>`, with a non-empty id. |
| VideoEmbed.DirectIdShape | frontend/src/components/VideoEmbedManager.js:17 | A direct-form YouTube id is a non-empty run without `&`, `?` or `/`, right after one of the three prefixes. |
| VideoEmbed.VimeoIdDigits | frontend/src/components/VideoEmbedManager.js:22 | A Vimeo id is a non-empty run of digits after `vimeo.com/`. |
| VideoEmbed.AddVideo | frontend/src/components/VideoEmbedManager.js:51-82 | A blank URL or an unparsable URL is refused with its own message. Otherwise exactly one video is appended, with the parsed embed URL, platform and thumbnail, the trimmed caption, and order equal to the old length; earlier videos are unchanged. |
| VideoEmbed.RemoveVideo | frontend/src/components/VideoEmbedManager.js:84-87 | Drops exactly the element at the index and keeps the others in order; an out-of-range index changes nothing. |
| VideoEmbed.RemoveUndoesAdd | frontend/src/components/VideoEmbedManager.js:51-87 | Removing the last added video restores the list. |
| VideoEmbed.ChangeCaption | frontend/src/components/VideoEmbedManager.js:89-94 | Only the caption of the video at the index changes. |
| VideoEmbed.ChangeAutoplay | frontend/src/components/VideoEmbedManager.js:96-101 | Only the autoplay flag of the video at the index changes. |
| VideoEmbed.CaptionEditReversible | frontend/src/components/VideoEmbedManager.js:89-94 | Writing back the old caption restores the list. |
| VideoModal.PlayerUrl | frontend/src/components/VideoModal.js:23-33 | Nothing without a video. Otherwise the url plus `?autoplay=1&rel=0` for YouTube, plus `?autoplay=1` for Vimeo, and the url unchanged for any other platform. |
| VideoModal.AddedVideoPlaysItsId | frontend/src/components/VideoModal.js:26-33 | An added YouTube video plays `https://www.youtube.com/embed/<id>?autoplay=1&rel=0`. |
| TimelineEditor.Orientation | frontend/src/components/TimelineManager.js:15 | A missing or empty orientation reads as vertical. |
| TimelineEditor.SortByDate | frontend/src/components/TimelineManager.js:32 | The array ends sorted by date ascending and is a permutation of its old contents. |
| TimelineEditor.SwapDown | frontend/src/components/TimelineManager.js:32 | Exchanges two neighbours and nothing else, keeping the multiset. |
| TimelineEditor.AddEvent | frontend/src/components/TimelineManager.js:17-47 | An empty title or date is refused with its message. Otherwise the events are the old ones plus the new one with order equal to the old length, as a multiset, sorted by date, with the other timeline fields kept. |
| TimelineEditor.RemoveEvent | frontend/src/components/TimelineManager.js:49-55 | Drops exactly the event at the index and keeps the other timeline fields. |
| TimelineEditor.ToggleTimeline | frontend/src/components/TimelineManager.js:57-62 | Stores the negation of `showTimeline`; the events and orientation are kept. |
| TimelineEditor.ToggleTwice | frontend/src/components/TimelineManager.js:57-62 | Toggling twice restores a set flag; an unset flag ends as explicitly false. |
| TimelineEditor.ChangeOrientation | frontend/src/components/TimelineManager.js:64-69 | Sets only the orientation, which then reads back. |
| FamilyEditor.AddMember | frontend/src/components/FamilyManager.js:30-49 | An empty name or relationship is refused with its message. Otherwise one member is appended with order equal to the old length, and `showFamily` is kept. |
| FamilyEditor.RemoveMember | frontend/src/components/FamilyManager.js:51-54 | Drops exactly the member at the index, the others in order, with `showFamily` kept. |
| FamilyEditor.RemoveUndoesAdd | frontend/src/components/FamilyManager.js:30-54 | Removing the last added member restores the list. |
| FamilyEditor.ToggleFamily | frontend/src/components/FamilyManager.js:56-58 | Negates `showFamily`; a missing list reads as empty. |
| FavoritesEditor.PresetsDistinct | frontend/src/components/FavoritesManager.js:15-26 | The ten presets have distinct names and distinct icons. |
| FavoritesEditor.IconComponent | frontend/src/components/FavoritesManager.js:28-31 | A preset icon name gives its component; any other name gives Star. |
| FavoritesEditor.ChangeCategory | frontend/src/components/FavoritesManager.js:63-70 | Sets the category and the matching preset's icon, or Star for an unknown category; the content is kept. |
| FavoritesEditor.PresetIconsRoundTrip | frontend/src/components/FavoritesManager.js:28-31 | Choosing a preset category and looking up its icon gives that preset's component. |
| FavoritesEditor.AddFavorite | frontend/src/components/FavoritesManager.js:33-52 | An empty category or content is refused with its message. Otherwise one favorite is appended with order equal to the old length, and `showFavorites` is kept. |
| FavoritesEditor.RemoveFavorite | frontend/src/components/FavoritesManager.js:54-57 | Drops exactly the favorite at the index. |
| FavoritesEditor.RemoveUndoesAdd | frontend/src/components/FavoritesManager.js:33-57 | Removing the last added favorite restores the list. |
| FavoritesEditor.ToggleFavorites | frontend/src/components/FavoritesManager.js:59-61 | Negates `showFavorites` and keeps the items. |
| GalleryEditor.DisplayStyle | frontend/src/components/GalleryManager.js:112-113 | A missing or empty display style reads as grid. |
| GalleryEditor.RemovePhoto | frontend/src/components/GalleryManager.js:87-93 | Drops exactly the photo at the index; videos, display style and visibility are kept. |
| GalleryEditor.ChangeCaption | frontend/src/components/GalleryManager.js:95-103 | Only the caption of the photo at the index changes. |
| GalleryEditor.OutOfRangeCaptionKeepsPhotos | frontend/src/components/GalleryManager.js:96-98 | A caption edit at an index out of range leaves the photos unchanged. |
| GalleryEditor.ChangeDisplayStyle | frontend/src/components/GalleryManager.js:105-110 | Sets only the display style, which then reads back; the photos are kept. |
| CoverPhotoEditor.ChooseFile | frontend/src/components/CoverPhotoManager.js:19-34 | The new url, the old size or medium, the old position or center, and a gradient that stays on unless explicitly off. |
| CoverPhotoEditor.ChooseFileKeepsGradient | frontend/src/components/CoverPhotoManager.js:25-30 | Choosing a file never changes whether the gradient shows. |
| CoverPhotoEditor.RemoveCover | frontend/src/components/CoverPhotoManager.js:36-39 | Both the cover and the preview become null. |
| CoverPhotoEditor.ChangeSize | frontend/src/components/CoverPhotoManager.js:41-47 | Sets the size and the url; position and gradient are kept. |
| CoverPhotoEditor.ChangePosition | frontend/src/components/CoverPhotoManager.js:49-55 | Sets the position and the url; size and gradient are kept. |
| CoverPhotoEditor.ToggleGradient | frontend/src/components/CoverPhotoManager.js:57-63 | Stores the negation of the stored flag; url, size and position are kept. |
| CoverPhotoEditor.ToggleFlipsShownIffSet | frontend/src/components/CoverPhotoManager.js:57-63 | The toggle flips what is displayed iff the flag was set. An unset flag is displayed as on and stays on after the toggle. |
| CoverPhotoEditor.PositionClass | frontend/src/components/CoverPhotoManager.js:65-72 | top and bottom give their classes; anything else gives `object-center`. |
| PhotoCropper.CropShape | frontend/src/components/PhotoCropper.js:12-15 | round iff the shape is circle or oval, otherwise rect. |
| PhotoCropper.AspectRatio | frontend/src/components/PhotoCropper.js:18-23 | 4/5 for oval and 1 for every other shape. |
| PhotoCropper.JsRem | frontend/src/components/PhotoCropper.js:40 | JavaScript `%`: the remainder takes the sign of the dividend. |
| PhotoCropper.Rotate | frontend/src/components/PhotoCropper.js:39-41 | From -90 up the result is (r + 90) mod 360, in [0, 360); below -90 it stays in (-360, 0]. |
| PhotoCropper.FourRotationsRestore | frontend/src/components/PhotoCropper.js:39-41 | Four presses from any rotation in [0, 360) return to it. |
| PhotoCropper.RotateNPeriodic | frontend/src/components/PhotoCropper.js:39-41 | Any number of presses stays in [0, 360), and the presses repeat with period four. |
| PhotoCropper.Initial | frontend/src/components/PhotoCropper.js:5-9 | The cropper starts at rotation 0 and zoom 1, with no crop area. |
| PhotoCropper.PressRotate | frontend/src/components/PhotoCropper.js:39-41 | A press changes only the rotation. |
| PhotoCropper.PressAll | frontend/src/components/PhotoCropper.js:39-41 | A sequence of presses changes only the rotation, by repeated rotation steps. |
| PhotoCropper.Save | frontend/src/components/PhotoCropper.js:29-37 | Reports the current crop, zoom, rotation and crop area, and passes the shape through. |
| PhotoCropper.SavedRotationInRange | frontend/src/components/PhotoCropper.js:29-41 | Whatever the number of presses, the saved rotation is in [0, 360). |

## Left out

- JWT signing and expiry (RFC 7519) are not modelled. A session is the user id, and verification is a parameter function from token to user id.
- bcrypt's salt and work factor are not modelled: a hash is a free constructor. `crypto.randomBytes` tokens and `Math.random` slug draws are parameters.
- Sending email (verification, magic link, reset, email-change confirmation) is left out; backend/utils/email.js is not part of this model. The routes catch mail failures, so no answer depends on them.
- Mongo persistence, `populate`, `select` and the `updatedAt` timestamps are left out. So is the race between the slug check and the unique index.
- Store.Db.GenerateUniqueUrl: the source loops until a free slug appears. The model takes a finite list of attempts, and fails (500) when all of them collide.
- AuthRoutes.ChangePassword: an unknown caller id is answered with a 500; `protect` normally prevents that case. A missing current password on an account with a password is also a 500, because the hash comparison throws.
- The me and logout routes only echo the user or a fixed message, and are left out.
- Request fields of the wrong JSON type (a number or an array where a string is expected) are not modelled.
- AuthRoutes.Register: `email` and `name` are plain strings, so a missing field is modelled as "". That is the same answer as in the source: no user matches a missing email, and `User.create` then fails validation with a 500.
- AuthRoutes.RequestMagicLink: `email` is a plain string, so a missing email is modelled as "". No account has an empty email, so the reply is the same.
- AuthRoutes.Login: `email` is a plain string, so a missing email is modelled as "" and answered with a 401, as in the source.
- AuthRoutes.ForgotPassword: `email` is a plain string, so a missing email is modelled as "" and gets the same reply.
- AuthRoutes.ChangeEmail: `newEmail` is a plain string, so a missing field is modelled as "". No user matches it, as in the source.
- AuthRoutes.MagicLogin: `token` is a plain string, so a missing token is not modelled. In the source it would match only a user whose link token is unset but whose expiry is set, and the routes always set and clear those two together.
- AuthRoutes.ResetPassword: `token` is a plain string, so a missing token is not modelled. In the source it would match only a user whose reset token is unset but whose expiry is set, and the routes always set and clear those two together.
- Text.ToLower: lower-cases ASCII letters only. Mongoose's `lowercase` setter uses JavaScript's `toLowerCase`, which also maps non-ASCII letters (and can change a string's length).
- AuthRoutes.AccountWithEmail: because of the ASCII-only lower-casing, emails that differ only in the case of a non-ASCII letter ("É@x.com", "é@x.com") count as different here and as equal in the source.
- AuthRoutes.ActiveAccount: the same ASCII-only lower-casing gap as `AccountWithEmail`, for magic-link, login and forgot-password lookups.
- AuthRoutes.RegisteredUser: stores the email lower-cased in ASCII only; the same gap.
- MemorialRoutes.Update: the cover and gallery objects of the body are stored as given. Mongoose filling their missing nested fields with schema defaults is not modelled.
- MemorialRoutes.MyMemorials: the order among memorials with equal `createdAt` is not stated.
- The gallery photo upload path (FileReader, compression), theme editing, tributes and the cropper widget's zoom are left out. So is the UI form state (open/closed forms, error text).
- TimelineEditor.SortByDate: dates that parse to NaN are not modelled (`dateValue` returns a number for every string). Stability of the sort is not stated.
- CoverPhotoEditor.PositionClass: JavaScript object lookups of prototype keys such as "toString" are not modelled. Every unknown key falls back to center.
- VideoEmbed.ParseVideoUrl: the shape of the id captured by the `watch?v=` query form is not proved separately. The direct-form and Vimeo id shapes are proved.
- MemorialRoutes.FetchBySlug: the requester is an argument. The slug route does not run `optionalAuth`, so in the source it is always anonymous.
- Timeline orientation is stored by the frontend only. The memorial schema has no orientation path, so an update drops it (`StoredTimeline`).

## Findings

| source | as written | input that shows it | evidently intended | confidence | as-written member | corrected member |
|---|---|---|---|---|---|---|
| backend/routes/auth.js:136-141 | The magic-link reply adds `devNote` whenever an active account exists, in every environment. The reply for an unknown email has no note, so the two replies differ in production. | A production request for the email of an active account, and one for an unknown email. | The same reply in production whether or not the account exists. This is what the route's own "If an account exists" message promises (lines 106-109). | not executed | AuthRoutes.MagicLinkReplyAsWrittenRevealsAccount | AuthRoutes.MagicLinkReplyHidesAccount |
| backend/routes/auth.js:70-79 | POST /verify-email looks up `{ emailVerificationToken: token }` without checking that a token was sent. A body without `token` becomes a query for an unset token, which the MongoDB driver sends as `null` (its default for `undefined`). That matches every user whose token has been cleared, that is, every verified user. | A POST /verify-email with an empty JSON body after any account has verified its email: that account is signed in (lines 81-92). | A missing token is refused with 400 "Invalid verification token", like an unknown one. | not executed | AuthRoutes.MissingTokenFindsVerifiedUserAsWritten | AuthRoutes.VerifiedUserNeverMatched |
