/**
 * The account routes under /api/auth: register, verify-email, magic-link, magic-login,
 * login, forgot-password, reset-password, change-password and change-email.
 *
 * Each route is a method on the store. What it does to the one user it finds is a
 * function on `User` (`Verified`, `IssueMagicLink`, `MagicLoginStep`, ...), so that
 * properties spanning several requests are lemmas about those functions. Random tokens
 * and the clock are parameters; a signed JWT is the `Session` it carries. The email in
 * a query goes through the schema's `lowercase` and `trim` setters, as the stored one did.
 */
module AuthRoutes {
  import opened Wrappers
  import opened Users
  import opened Http
  import Text
  import Collections
  import Store

  const DefaultMagicLinkMaxUses := 3
  /** Fifteen minutes, in milliseconds. */
  const DefaultMagicLinkExpire := 900000
  /** One hour, in milliseconds. */
  const PasswordResetWindow := 3600000

  const MagicLinkDevNote := "Email may not be sent. Check console for magic token."

  /** `parseInt(process.env.X) || d`: an unset, non-numeric or zero setting falls back to `d`. */
  function EnvIntOr(env: Option<int>, d: int): (r: int)
    ensures env.Some? && env.value != 0 ==> r == env.value
    ensures env.None? || env.value == 0 ==> r == d
  {
    if env.Some? && env.value != 0 then env.value else d
  }

  /** The payload of a signed JWT (`{ id }`); its expiry is not modelled. */
  datatype Session = Session(userId: nat)

  /** The JSON bodies of successful replies. */
  datatype Reply =
    | Note(message: string)
      /** The registration reply; the verification token is included in development only. */
    | Registered(verificationToken: Option<string>)
      /** A JWT for the user with the given id, sent with that user's profile. */
    | SignedIn(session: Session, user: nat)
      /** The magic-link reply: the fixed message plus the development-only fields. */
    | LinkSent(devNote: Option<string>, magicToken: Option<string>)

  /** `User.findOne({ email })`. */
  function AccountWithEmail(users: seq<User>, email: string): (i: Option<nat>)
    ensures i.Some? ==> i.value < |users| && users[i.value].email == Text.NormalizeEmail(email)
    ensures i.None? <==> forall j :: 0 <= j < |users| ==> users[j].email != Text.NormalizeEmail(email)
  {
    var e := Text.NormalizeEmail(email);
    Collections.First(users, (u: User) => u.email == e)
  }

  /** `User.findOne({ email, accountStatus: 'active' })`. */
  function ActiveAccount(users: seq<User>, email: string): (i: Option<nat>)
    ensures i.Some? ==> i.value < |users| && users[i.value].email == Text.NormalizeEmail(email)
    ensures i.Some? ==> users[i.value].accountStatus == Active
    ensures i.None? <==> forall j :: 0 <= j < |users| ==>
                          users[j].email != Text.NormalizeEmail(email) || users[j].accountStatus != Active
  {
    var e := Text.NormalizeEmail(email);
    Collections.First(users, (u: User) => u.email == e && u.accountStatus == Active)
  }

  // ---------------------------------------------------------------- register

  /**
   * POST /register. An email already registered is refused with 400. The new user is
   * created with the trimmed name, the normalised email, the password when a non-empty
   * one is given, and the verification token; creation fails validation (500) when the
   * name or the email is blank.
   */
  method Register(db: Store.Db, email: string, name: string, password: Option<string>,
                  verificationToken: string, now: int) returns (res: Response<Reply>)
    requires db.Valid()
    modifies db
    ensures db.Valid() && db.memorials == old(db.memorials)
    ensures AccountWithEmail(old(db.users), email).Some? ==> res == Error(400, "User already exists")
    ensures res.Ok? <==>
              && AccountWithEmail(old(db.users), email).None?
              && Text.NormalizeEmail(email) != "" && Text.Trim(name) != ""
    ensures res.Ok? ==>
              && res == Ok(201, Registered(if db.development then Some(verificationToken) else None))
              && db.users == old(db.users) + [RegisteredUser(email, name, password, verificationToken, now)]
    ensures res.Error? ==> db.users == old(db.users)
  {
    if AccountWithEmail(db.users, email).Some? {
      return Error(400, "User already exists");
    }
    if Text.NormalizeEmail(email) == "" || Text.Trim(name) == "" {
      return Error(500, "Server error during registration");
    }
    db.InsertUser(RegisteredUser(email, name, password, verificationToken, now));
    res := Ok(201, Registered(if db.development then Some(verificationToken) else None));
  }

  /** The document `User.create` saves for a registration: `password || undefined`, hashed by the hook. */
  function RegisteredUser(email: string, name: string, password: Option<string>, verificationToken: string, now: int): (u: User)
    ensures NotPlaintext(u.password) && !u.emailVerified && u.accountStatus == Active
    ensures u.email == Text.NormalizeEmail(email) && u.name == Text.Trim(name)
    ensures u.emailVerificationToken == Some(verificationToken)
    ensures HasPassword(u.password) <==> password.Some? && password.value != ""
  {
    var given := if password.Some? && password.value != "" then password else None;
    PreSave(NewUser(Text.NormalizeEmail(email), Text.Trim(name), given, Some(verificationToken), now), true)
  }

  // ------------------------------------------------------------ verify-email

  /**
   * `User.findOne({ emailVerificationToken: token })` as written. A body without `token`
   * sends the query `{ emailVerificationToken: undefined }`, which the driver serialises
   * as `null`; that matches every user whose token is unset, i.e. every verified user.
   */
  function VerificationQueryAsWritten(users: seq<User>, token: Option<string>): (i: Option<nat>)
    ensures i.Some? ==> i.value < |users| && users[i.value].emailVerificationToken == token
    ensures i.None? <==> forall j :: 0 <= j < |users| ==> users[j].emailVerificationToken != token
  {
    Collections.First(users, (u: User) => u.emailVerificationToken == token)
  }

  /**
   * As written, POST /verify-email without a token finds a user who has already
   * verified: registering and verifying one account is enough for the query to match it.
   */
  lemma MissingTokenFindsVerifiedUserAsWritten(email: string, name: string, password: Option<string>,
                                                token: string, now: int)
    ensures VerificationQueryAsWritten([Verified(RegisteredUser(email, name, password, token, now))], None) == Some(0)
  {
  }

  /** The verification lookup with a token required: a missing token matches no one. */
  function HolderOfVerificationToken(users: seq<User>, token: Option<string>): (i: Option<nat>)
    ensures i.Some? ==> token.Some? && i.value < |users| && users[i.value].emailVerificationToken == token
    ensures i.None? <==> token.None? || forall j :: 0 <= j < |users| ==> users[j].emailVerificationToken != token
  {
    if token.None? then None
    else Collections.First(users, (u: User) => u.emailVerificationToken == token)
  }

  /** With the token required, a user with no pending verification token is never signed in by it. */
  lemma VerifiedUserNeverMatched(users: seq<User>, token: Option<string>, i: nat)
    requires i < |users| && users[i].emailVerificationToken.None?
    ensures HolderOfVerificationToken(users, token) != Some(i)
  {
  }

  /** The verified user: the email is verified and the token is spent; nothing else changes. */
  function Verified(u: User): (r: User)
    ensures r.emailVerified && r.emailVerificationToken.None?
    ensures r.(emailVerified := u.emailVerified, emailVerificationToken := u.emailVerificationToken) == u
  {
    PreSave(u.(emailVerified := true, emailVerificationToken := None), false)
  }

  /**
   * POST /verify-email: 400 for a missing token or one no user holds; otherwise the
   * holder is verified and signed in. The account status is not checked.
   */
  method VerifyEmail(db: Store.Db, token: Option<string>) returns (res: Response<Reply>)
    requires db.Valid()
    modifies db
    ensures db.Valid() && db.memorials == old(db.memorials)
    ensures HolderOfVerificationToken(old(db.users), token).None? ==>
              res == Error(400, "Invalid verification token") && db.users == old(db.users)
    ensures HolderOfVerificationToken(old(db.users), token).Some? ==>
              var i := HolderOfVerificationToken(old(db.users), token).value;
              res == Ok(200, SignedIn(Session(i), i)) && db.users == old(db.users)[i := Verified(old(db.users)[i])]
  {
    var found := HolderOfVerificationToken(db.users, token);
    if found.None? {
      return Error(400, "Invalid verification token");
    }
    var i := found.value;
    db.SaveUser(i, Verified(db.users[i]));
    res := Ok(200, SignedIn(Session(i), i));
  }

  /** A verification token works once: the verified user no longer holds it. */
  lemma VerificationTokenSingleUse(users: seq<User>, i: nat, token: string)
    requires i < |users| && (forall j :: 0 <= j < |users| && j != i ==> users[j].emailVerificationToken != Some(token))
    ensures HolderOfVerificationToken(users[i := Verified(users[i])], Some(token)).None?
  {
  }

  // ------------------------------------------------------- magic link login

  /** What POST /magic-link does to the active account it finds: a fresh link, valid until `expires`. */
  function IssueMagicLink(u: User, token: string, expires: int): (r: User)
    ensures r.magicLinkToken == Some(token) && r.magicLinkExpires == Some(expires) && r.magicLinkUses == 0
    ensures r.(magicLinkToken := u.magicLinkToken, magicLinkExpires := u.magicLinkExpires, magicLinkUses := u.magicLinkUses) == u
  {
    PreSave(u.(magicLinkToken := Some(token), magicLinkExpires := Some(expires), magicLinkUses := 0), false)
  }

  /** The magic-login query: the token matches, the link has not expired and the account is active. */
  predicate MagicLinkMatches(u: User, token: string, now: int) {
    && u.magicLinkToken == Some(token)
    && u.magicLinkExpires.Some? && u.magicLinkExpires.value > now
    && u.accountStatus == Active
  }

  /**
   * POST /magic-login on one user: refused when the link does not match or is used up;
   * otherwise one more use is counted, the link is cleared once the count reaches
   * `maxUses`, and the login time is recorded.
   */
  function MagicLoginStep(u: User, token: string, now: int, maxUses: int): (r: Response<User>)
    ensures !MagicLinkMatches(u, token, now) ==> r == Error(400, "Invalid or expired magic link")
    ensures r.Ok? <==> MagicLinkMatches(u, token, now) && u.magicLinkUses < maxUses
    ensures r.Error? ==> r.status == 400
    ensures r.Ok? ==>
              && r.status == 200
              && r.body.magicLinkUses == u.magicLinkUses + 1 && r.body.lastLogin == Some(now)
              && (r.body.magicLinkToken.None? <==> r.body.magicLinkUses >= maxUses)
              && (r.body.magicLinkUses >= maxUses ==> r.body.magicLinkExpires.None?)
              && (r.body.magicLinkToken.Some? ==> r.body.magicLinkExpires == u.magicLinkExpires)
              && r.body.(magicLinkToken := u.magicLinkToken, magicLinkExpires := u.magicLinkExpires,
                         magicLinkUses := u.magicLinkUses, lastLogin := u.lastLogin) == u
  {
    if !MagicLinkMatches(u, token, now) then Error(400, "Invalid or expired magic link")
    else if u.magicLinkUses >= maxUses then Error(400, "Magic link has been used too many times")
    else
      var counted := u.(magicLinkUses := u.magicLinkUses + 1);
      var cleared := if counted.magicLinkUses >= maxUses
                     then counted.(magicLinkToken := None, magicLinkExpires := None)
                     else counted;
      Ok(200, PreSave(cleared.(lastLogin := Some(now)), false))
  }

  /** Logins with one link at the given times, in order; absent as soon as one is refused. */
  function Replay(u: User, token: string, times: seq<int>, maxUses: int): Option<User>
    decreases |times|
  {
    if times == [] then Some(u)
    else
      match MagicLoginStep(u, token, times[0], maxUses)
      case Ok(_, next) => Replay(next, token, times[1..], maxUses)
      case Error(_, _) => None
  }

  /** While uses remain and the link has not expired, every login succeeds and counts one use. */
  lemma {:induction false} ReplayCountsUses(u: User, token: string, expires: int, times: seq<int>, maxUses: int)
    requires u.magicLinkToken == Some(token) && u.magicLinkExpires == Some(expires) && u.accountStatus == Active
    requires u.magicLinkUses + |times| <= maxUses
    requires forall k :: 0 <= k < |times| ==> times[k] < expires
    ensures Replay(u, token, times, maxUses).Some?
    ensures Replay(u, token, times, maxUses).value.magicLinkUses == u.magicLinkUses + |times|
    ensures Replay(u, token, times, maxUses).value.accountStatus == Active
    decreases |times|
  {
    if times != [] {
      var next := MagicLoginStep(u, token, times[0], maxUses).body;
      if next.magicLinkUses < maxUses {
        ReplayCountsUses(next, token, expires, times[1..], maxUses);
      } else {
        assert |times| == 1;
        assert times[1..] == [];
      }
    }
  }

  /**
   * A freshly issued link allows exactly `maxUses` logins before it expires (none when
   * `maxUses` is not positive): the first `maxUses` succeed and the next one is refused.
   */
  lemma MagicLinkAllowsExactlyMaxUses(u: User, token: string, expires: int, times: seq<int>, maxUses: int, later: int)
    requires u.accountStatus == Active
    requires |times| == if maxUses > 0 then maxUses else 0
    requires forall k :: 0 <= k < |times| ==> times[k] < expires
    ensures Replay(IssueMagicLink(u, token, expires), token, times, maxUses).Some?
    ensures MagicLoginStep(Replay(IssueMagicLink(u, token, expires), token, times, maxUses).value, token, later, maxUses).Error?
  {
    if maxUses > 0 {
      ReplayCountsUses(IssueMagicLink(u, token, expires), token, expires, times, maxUses);
    }
  }

  /** A link is refused once its expiry time is reached, however few times it was used. */
  lemma ExpiredMagicLinkRefused(u: User, token: string, now: int, maxUses: int)
    requires u.magicLinkExpires.Some? && now >= u.magicLinkExpires.value
    ensures MagicLoginStep(u, token, now, maxUses) == Error(400, "Invalid or expired magic link")
  {
  }

  /** Requesting a new link invalidates the previous one and restarts the use count. */
  lemma NewMagicLinkReplacesOld(u: User, oldToken: string, newToken: string, expires: int, now: int, maxUses: int)
    requires oldToken != newToken
    ensures MagicLoginStep(IssueMagicLink(u, newToken, expires), oldToken, now, maxUses).Error?
    ensures IssueMagicLink(u, newToken, expires).magicLinkUses == 0
  {
  }

  /**
   * The magic-link reply as the handler builds it: the found branch adds `devNote` in
   * every environment, the not-found branch adds nothing.
   */
  function MagicLinkReplyAsWritten(found: bool, development: bool, token: string): (r: Reply)
    ensures r.LinkSent? && (r.devNote.Some? <==> found)
    ensures r.magicToken.Some? <==> found && development
  {
    if found then LinkSent(Some(MagicLinkDevNote), if development then Some(token) else None)
    else LinkSent(None, None)
  }

  /** Outside development the reply as written tells whether an active account has the email. */
  lemma MagicLinkReplyAsWrittenRevealsAccount(token: string)
    ensures MagicLinkReplyAsWritten(true, false, token) != MagicLinkReplyAsWritten(false, false, token)
  {
  }

  /** The magic-link reply with the development-only fields sent only in development. */
  function MagicLinkReply(found: bool, development: bool, token: string): (r: Reply)
    ensures r.LinkSent? && (r.devNote.Some? <==> found && development)
    ensures r.magicToken.Some? <==> found && development
    ensures r.magicToken.Some? ==> r.magicToken.value == token
  {
    if found && development then LinkSent(Some(MagicLinkDevNote), Some(token)) else LinkSent(None, None)
  }

  /** Outside development the reply is the same whether or not an active account has the email. */
  lemma MagicLinkReplyHidesAccount(token: string, otherToken: string)
    ensures MagicLinkReply(true, false, token) == MagicLinkReply(false, false, otherToken)
  {
  }

  /**
   * POST /magic-link: the active account with the email, if any, gets a fresh link valid
   * for the configured window; the reply does not depend on the account outside development.
   */
  method RequestMagicLink(db: Store.Db, email: string, token: string, now: int) returns (res: Response<Reply>)
    requires db.Valid()
    modifies db
    ensures db.Valid() && db.memorials == old(db.memorials)
    ensures res == Ok(200, MagicLinkReply(ActiveAccount(old(db.users), email).Some?, db.development, token))
    ensures ActiveAccount(old(db.users), email).None? ==> db.users == old(db.users)
    ensures ActiveAccount(old(db.users), email).Some? ==>
              var i := ActiveAccount(old(db.users), email).value;
              var expires := now + EnvIntOr(db.magicLinkExpireEnv, DefaultMagicLinkExpire);
              db.users == old(db.users)[i := IssueMagicLink(old(db.users)[i], token, expires)]
  {
    var found := ActiveAccount(db.users, email);
    if found.Some? {
      var i := found.value;
      var expires := now + EnvIntOr(db.magicLinkExpireEnv, DefaultMagicLinkExpire);
      db.SaveUser(i, IssueMagicLink(db.users[i], token, expires));
    }
    res := Ok(200, MagicLinkReply(found.Some?, db.development, token));
  }

  /** The magic-login query over the store. */
  function MagicLinkHolder(users: seq<User>, token: string, now: int): (i: Option<nat>)
    ensures i.Some? ==> i.value < |users| && MagicLinkMatches(users[i.value], token, now)
    ensures i.None? <==> forall j :: 0 <= j < |users| ==> !MagicLinkMatches(users[j], token, now)
  {
    Collections.First(users, (u: User) => MagicLinkMatches(u, token, now))
  }

  /** POST /magic-login: `MagicLoginStep` on the user the query finds, signing that user in. */
  method MagicLogin(db: Store.Db, token: string, now: int) returns (res: Response<Reply>)
    requires db.Valid()
    modifies db
    ensures db.Valid() && db.memorials == old(db.memorials)
    ensures MagicLinkHolder(old(db.users), token, now).None? ==>
              res == Error(400, "Invalid or expired magic link") && db.users == old(db.users)
    ensures MagicLinkHolder(old(db.users), token, now).Some? ==>
              var i := MagicLinkHolder(old(db.users), token, now).value;
              var maxUses := EnvIntOr(db.magicLinkMaxUsesEnv, DefaultMagicLinkMaxUses);
              match MagicLoginStep(old(db.users)[i], token, now, maxUses)
              case Ok(_, next) => res == Ok(200, SignedIn(Session(i), i)) && db.users == old(db.users)[i := next]
              case Error(status, message) => res == Error(status, message) && db.users == old(db.users)
  {
    var found := MagicLinkHolder(db.users, token, now);
    if found.None? {
      return Error(400, "Invalid or expired magic link");
    }
    var i := found.value;
    var maxUses := EnvIntOr(db.magicLinkMaxUsesEnv, DefaultMagicLinkMaxUses);
    var step := MagicLoginStep(db.users[i], token, now, maxUses);
    match step
    case Ok(_, next) =>
      db.SaveUser(i, next);
      res := Ok(200, SignedIn(Session(i), i));
    case Error(status, message) =>
      res := Error(status, message);
  }

  // ---------------------------------------------------------- password login

  /**
   * POST /login on the active account found by email: passwordless accounts are sent
   * to the magic link, a wrong password is refused, and an unverified email is refused
   * after the password matched; success records the login time and nothing else.
   */
  function PasswordLogin(u: User, password: Option<string>, now: int): (r: Response<User>)
    ensures !HasPassword(u.password) ==>
              r == Error(400, "This account uses passwordless login. Please request a magic link.")
    ensures r.Ok? <==>
              && HasPassword(u.password) && password.Some?
              && u.password == Some(Hashed(Plain(password.value))) && u.emailVerified
    ensures r.Ok? ==> r == Ok(200, u.(lastLogin := Some(now)))
    ensures HasPassword(u.password) && password.None? ==> r == Error(500, "Server error during login")
    ensures HasPassword(u.password) && password.Some? && !ComparePassword(u, password.value) ==>
              r == Error(401, "Invalid credentials")
    ensures HasPassword(u.password) && password.Some? && ComparePassword(u, password.value) && !u.emailVerified ==>
              r == Error(401, "Please verify your email first")
  {
    if !HasPassword(u.password) then
      Error(400, "This account uses passwordless login. Please request a magic link.")
    else if password.None? then
      // bcrypt.compare rejects an undefined candidate; the handler's catch answers
      Error(500, "Server error during login")
    else if !ComparePassword(u, password.value) then Error(401, "Invalid credentials")
    else if !u.emailVerified then Error(401, "Please verify your email first")
    else Ok(200, PreSave(u.(lastLogin := Some(now)), false))
  }

  /** POST /login: 401 when no active account has the email, otherwise `PasswordLogin`. */
  method Login(db: Store.Db, email: string, password: Option<string>, now: int) returns (res: Response<Reply>)
    requires db.Valid()
    modifies db
    ensures db.Valid() && db.memorials == old(db.memorials)
    ensures ActiveAccount(old(db.users), email).None? ==>
              res == Error(401, "Invalid credentials") && db.users == old(db.users)
    ensures ActiveAccount(old(db.users), email).Some? ==>
              var i := ActiveAccount(old(db.users), email).value;
              match PasswordLogin(old(db.users)[i], password, now)
              case Ok(_, next) => res == Ok(200, SignedIn(Session(i), i)) && db.users == old(db.users)[i := next]
              case Error(status, message) => res == Error(status, message) && db.users == old(db.users)
  {
    var found := ActiveAccount(db.users, email);
    if found.None? {
      return Error(401, "Invalid credentials");
    }
    var i := found.value;
    var verdict := PasswordLogin(db.users[i], password, now);
    match verdict
    case Ok(_, next) =>
      db.SaveUser(i, next);
      res := Ok(200, SignedIn(Session(i), i));
    case Error(status, message) =>
      res := Error(status, message);
  }

  /**
   * Registering with a non-empty password and verifying the email lets exactly that
   * password sign in; without a password the account is passwordless.
   */
  lemma RegisterVerifyLogin(email: string, name: string, password: Option<string>, token: string, now: int,
                            candidate: Option<string>, later: int)
    ensures var u := Verified(RegisteredUser(email, name, password, token, now));
            PasswordLogin(u, candidate, later).Ok? <==> password.Some? && password.value != "" && candidate == password
    ensures password.None? ==>
              PasswordLogin(Verified(RegisteredUser(email, name, password, token, now)), candidate, later)
              == Error(400, "This account uses passwordless login. Please request a magic link.")
  {
  }

  // --------------------------------------------------------- password reset

  /** What POST /forgot-password does to the active account it finds. */
  function IssueResetToken(u: User, token: string, now: int): (r: User)
    ensures r.passwordResetToken == Some(token) && r.passwordResetExpires == Some(now + PasswordResetWindow)
    ensures r.(passwordResetToken := u.passwordResetToken, passwordResetExpires := u.passwordResetExpires) == u
  {
    PreSave(u.(passwordResetToken := Some(token), passwordResetExpires := Some(now + PasswordResetWindow)), false)
  }

  /** The reset-password query on one user; the account status is not part of it. */
  predicate ResetMatches(u: User, token: string, now: int) {
    u.passwordResetToken == Some(token) && u.passwordResetExpires.Some? && u.passwordResetExpires.value > now
  }

  /** The reset: the new password is assigned and hashed, and the reset token is spent. */
  function ApplyReset(u: User, newPassword: Option<string>): (r: User)
    ensures r.passwordResetToken.None? && r.passwordResetExpires.None? && NotPlaintext(r.password)
    ensures HasPassword(r.password) <==> newPassword.Some? && newPassword.value != ""
    ensures r.(password := u.password, passwordResetToken := u.passwordResetToken,
               passwordResetExpires := u.passwordResetExpires) == u
  {
    PreSave(u.(password := Assigned(newPassword), passwordResetToken := None, passwordResetExpires := None), true)
  }

  /** A reset token works for one hour after it is issued. */
  lemma ResetTokenWindow(u: User, token: string, issuedAt: int, now: int)
    ensures ResetMatches(IssueResetToken(u, token, issuedAt), token, now) <==> now < issuedAt + PasswordResetWindow
  {
  }

  /** A reset token works once, and afterwards exactly the new password signs in. */
  lemma ResetTokenSingleUse(u: User, token: string, newPassword: string, candidate: string, now: int)
    requires newPassword != ""
    ensures !ResetMatches(ApplyReset(u, Some(newPassword)), token, now)
    ensures ComparePassword(ApplyReset(u, Some(newPassword)), candidate) <==> candidate == newPassword
  {
  }

  /**
   * POST /forgot-password: the active account with the email, if any, gets a reset token
   * valid for one hour; the reply is the same either way.
   */
  method ForgotPassword(db: Store.Db, email: string, token: string, now: int) returns (res: Response<Reply>)
    requires db.Valid()
    modifies db
    ensures db.Valid() && db.memorials == old(db.memorials)
    ensures res == Ok(200, Note("If account exists, password reset email has been sent"))
    ensures ActiveAccount(old(db.users), email).None? ==> db.users == old(db.users)
    ensures ActiveAccount(old(db.users), email).Some? ==>
              var i := ActiveAccount(old(db.users), email).value;
              db.users == old(db.users)[i := IssueResetToken(old(db.users)[i], token, now)]
  {
    var found := ActiveAccount(db.users, email);
    if found.Some? {
      var i := found.value;
      db.SaveUser(i, IssueResetToken(db.users[i], token, now));
    }
    res := Ok(200, Note("If account exists, password reset email has been sent"));
  }

  /** The reset-password query over the store. */
  function ResetTokenHolder(users: seq<User>, token: string, now: int): (i: Option<nat>)
    ensures i.Some? ==> i.value < |users| && ResetMatches(users[i.value], token, now)
    ensures i.None? <==> forall j :: 0 <= j < |users| ==> !ResetMatches(users[j], token, now)
  {
    Collections.First(users, (u: User) => ResetMatches(u, token, now))
  }

  /** POST /reset-password: 400 for an unknown or expired token, otherwise `ApplyReset`. */
  method ResetPassword(db: Store.Db, token: string, newPassword: Option<string>, now: int) returns (res: Response<Reply>)
    requires db.Valid()
    modifies db
    ensures db.Valid() && db.memorials == old(db.memorials)
    ensures ResetTokenHolder(old(db.users), token, now).None? ==>
              res == Error(400, "Invalid or expired reset token") && db.users == old(db.users)
    ensures ResetTokenHolder(old(db.users), token, now).Some? ==>
              var i := ResetTokenHolder(old(db.users), token, now).value;
              res == Ok(200, Note("Password reset successful"))
              && db.users == old(db.users)[i := ApplyReset(old(db.users)[i], newPassword)]
  {
    var found := ResetTokenHolder(db.users, token, now);
    if found.None? {
      return Error(400, "Invalid or expired reset token");
    }
    var i := found.value;
    db.SaveUser(i, ApplyReset(db.users[i], newPassword));
    res := Ok(200, Note("Password reset successful"));
  }

  // ------------------------------------------------ signed-in account changes

  /**
   * POST /change-password on the signed-in user: an account with a password must give
   * the current one; a passwordless account sets one without that check.
   */
  function ChangePasswordStep(u: User, currentPassword: Option<string>, newPassword: Option<string>): (r: Response<User>)
    ensures r.Ok? <==> !HasPassword(u.password) || (currentPassword.Some? && ComparePassword(u, currentPassword.value))
    ensures r.Ok? ==>
              && r.status == 200 && NotPlaintext(r.body.password)
              && (HasPassword(r.body.password) <==> newPassword.Some? && newPassword.value != "")
              && r.body == u.(password := r.body.password)
    ensures HasPassword(u.password) && currentPassword.Some? && !ComparePassword(u, currentPassword.value) ==>
              r == Error(401, "Current password is incorrect")
  {
    if HasPassword(u.password) && currentPassword.None? then
      // bcrypt.compare rejects an undefined candidate; the handler's catch answers
      Error(500, "Server error changing password")
    else if HasPassword(u.password) && !ComparePassword(u, currentPassword.value) then
      Error(401, "Current password is incorrect")
    else Ok(200, PreSave(u.(password := Assigned(newPassword)), true))
  }

  /** After a password change only the new password signs in. */
  lemma ChangedPasswordIsTheOnlyOne(u: User, currentPassword: Option<string>, newPassword: string, candidate: string)
    requires newPassword != ""
    requires ChangePasswordStep(u, currentPassword, Some(newPassword)).Ok?
    ensures ComparePassword(ChangePasswordStep(u, currentPassword, Some(newPassword)).body, candidate) <==> candidate == newPassword
  {
  }

  /** POST /change-password for the user `protect` admitted (500 if that user is gone). */
  method ChangePassword(db: Store.Db, userId: nat, currentPassword: Option<string>, newPassword: Option<string>)
    returns (res: Response<Reply>)
    requires db.Valid()
    modifies db
    ensures db.Valid() && db.memorials == old(db.memorials)
    ensures userId >= |old(db.users)| ==> res == Error(500, "Server error changing password") && db.users == old(db.users)
    ensures userId < |old(db.users)| ==>
              match ChangePasswordStep(old(db.users)[userId], currentPassword, newPassword)
              case Ok(_, next) =>
                res == Ok(200, Note("Password changed successfully")) && db.users == old(db.users)[userId := next]
              case Error(status, message) => res == Error(status, message) && db.users == old(db.users)
  {
    if userId >= |db.users| {
      return Error(500, "Server error changing password");
    }
    var step := ChangePasswordStep(db.users[userId], currentPassword, newPassword);
    match step
    case Ok(_, next) =>
      db.SaveUser(userId, next);
      res := Ok(200, Note("Password changed successfully"));
    case Error(status, message) =>
      res := Error(status, message);
  }

  /**
   * POST /change-email: 400 when another account has the email. Otherwise the reply
   * says a confirmation was sent; the pending change is not a schema path, so the save
   * stores nothing and the store is left as it was.
   */
  method ChangeEmail(db: Store.Db, newEmail: string) returns (res: Response<Reply>)
    ensures res.Error? <==> exists j :: 0 <= j < |db.users| && db.users[j].email == Text.NormalizeEmail(newEmail)
    ensures res.Error? ==> res == Error(400, "Email already in use")
    ensures res.Ok? ==> res == Ok(200, Note("Confirmation email sent to your current email address"))
  {
    if AccountWithEmail(db.users, newEmail).Some? {
      return Error(400, "Email already in use");
    }
    res := Ok(200, Note("Confirmation email sent to your current email address"));
  }
}
