/**
 * The User document: its fields and defaults, the pre-save password hook, and the
 * model methods `comparePassword`, `hasPermission`, `softDelete` and `restore`.
 *
 * bcrypt is modelled by the free constructor `Hashed`: hashing is one-way in the sense
 * that the only way to compare is to hash the candidate; the salt and work factor are
 * not modelled. Dates are milliseconds since the epoch.
 */
module Users {
  import opened Wrappers
  import Collections

  /** The `role` enum; `Regular` is the value 'user'. */
  datatype Role = Regular | Admin | Moderator | Support

  datatype AccountStatus = Active | Suspended | Deleted

  /** A stored `password` value: the string as assigned, or a bcrypt hash of a stored value. */
  datatype Secret = Plain(text: string) | Hashed(of: Secret)

  datatype User = User(
    email: string,
    password: Option<Secret>,
    name: string,
    role: Role,
    customPermissions: seq<string>,
    memorialSlots: int,
    maxMemorials: Option<int>,
    maxPhotosPerMemorial: int,
    emailVerified: bool,
    emailVerificationToken: Option<string>,
    magicLinkToken: Option<string>,
    magicLinkExpires: Option<int>,
    magicLinkUses: int,
    passwordResetToken: Option<string>,
    passwordResetExpires: Option<int>,
    twoFactorEnabled: bool,
    accountStatus: AccountStatus,
    deletedAt: Option<int>,
    lastLogin: Option<int>,
    createdAt: int)

  const DefaultMaxPhotosPerMemorial := 20

  /** The value a route assigns to `password`: the string as given, or nothing when the field is absent. */
  function Assigned(password: Option<string>): (p: Option<Secret>)
    ensures p.Some? <==> password.Some?
    ensures p.Some? ==> p.value == Plain(password.value)
  {
    match password
    case None => None
    case Some(s) => Some(Plain(s))
  }

  /** `!!this.password`: a password is set and is not the empty string. */
  predicate HasPassword(p: Option<Secret>) {
    p.Some? && p.value != Plain("")
  }

  /** No password is held as non-empty plaintext. */
  predicate NotPlaintext(p: Option<Secret>) {
    p.None? || p.value == Plain("") || p.value.Hashed?
  }

  /** A new document before its first save, with the schema defaults for every field not given. */
  function NewUser(email: string, name: string, password: Option<string>, verificationToken: Option<string>, now: int): (u: User)
    ensures u.email == email && u.name == name && u.emailVerificationToken == verificationToken
    ensures u.password == if password.Some? then Some(Plain(password.value)) else None
    ensures u.role == Regular && u.customPermissions == [] && u.memorialSlots == 0
    ensures u.maxMemorials.None? && u.maxPhotosPerMemorial == DefaultMaxPhotosPerMemorial
    ensures !u.emailVerified && u.magicLinkUses == 0 && u.magicLinkToken.None? && u.passwordResetToken.None?
    ensures u.accountStatus == Active && u.deletedAt.None? && u.lastLogin.None?
  {
    User(email, if password.Some? then Some(Plain(password.value)) else None, name, Regular, [], 0, None,
         DefaultMaxPhotosPerMemorial, false, verificationToken, None, None, 0, None, None, false, Active,
         None, None, now)
  }

  /**
   * The pre-save hook: when the password path was modified and holds a truthy value,
   * it is replaced by its hash; otherwise the document is saved as it is.
   */
  function PreSave(u: User, passwordModified: bool): (r: User)
    ensures r == u.(password := r.password)
    ensures !passwordModified || !HasPassword(u.password) ==> r == u
    ensures passwordModified && u.password.Some? && u.password.value.Plain? ==> NotPlaintext(r.password)
    ensures HasPassword(r.password) == HasPassword(u.password)
  {
    if passwordModified && HasPassword(u.password) then u.(password := Some(Hashed(u.password.value))) else u
  }

  /** `comparePassword`: false without a stored password, else bcrypt's compare against the stored hash. */
  function ComparePassword(u: User, candidate: string): (r: bool)
    ensures !HasPassword(u.password) ==> !r
    ensures r ==> u.password == Some(Hashed(Plain(candidate)))
  {
    if !HasPassword(u.password) then false else u.password.value == Hashed(Plain(candidate))
  }

  /** A password assigned and saved matches exactly the non-empty plaintext it was set from. */
  lemma PasswordMatchesOnlyOriginal(u: User, p: string, candidate: string)
    ensures ComparePassword(PreSave(u.(password := Some(Plain(p))), true), candidate) <==> p != "" && candidate == p
  {
  }

  /** `hasPermission`: every permission for an admin, otherwise membership in `customPermissions`. */
  function HasPermission(u: User, permission: string): (r: bool)
    ensures u.role == Admin ==> r
    ensures u.role != Admin ==> (r <==> exists i :: 0 <= i < |u.customPermissions| && u.customPermissions[i] == permission)
  {
    u.role == Admin || Collections.First(u.customPermissions, (q: string) => q == permission).Some?
  }

  /** `softDelete`: the account is marked deleted at `now`; nothing else changes. */
  function SoftDeleted(u: User, now: int): (r: User)
    ensures r.accountStatus == Deleted && r.deletedAt == Some(now)
    ensures r.(accountStatus := u.accountStatus, deletedAt := u.deletedAt) == u
  {
    PreSave(u.(accountStatus := Deleted, deletedAt := Some(now)), false)
  }

  /** `restore`: the account is active again and `deletedAt` is cleared; nothing else changes. */
  function Restored(u: User): (r: User)
    ensures r.accountStatus == Active && r.deletedAt.None?
    ensures r.(accountStatus := u.accountStatus, deletedAt := u.deletedAt) == u
  {
    PreSave(u.(accountStatus := Active, deletedAt := None), false)
  }

  /** Restoring a soft-deleted account gives back the account with only its status and `deletedAt` reset. */
  lemma RestoreUndoesSoftDelete(u: User, now: int)
    ensures Restored(SoftDeleted(u, now)) == u.(accountStatus := Active, deletedAt := None)
    ensures u.accountStatus == Active && u.deletedAt.None? ==> Restored(SoftDeleted(u, now)) == u
  {
  }
}
