/**
 * The account lifecycle of the authentication service as pure step functions.
 *
 * The persisted state is a `Db`: credential records keyed by email and admin
 * profiles keyed by the id of the credential they belong to. Every request is
 * one step: a sequence of guards, each failing with a literal HTTP status,
 * followed by field updates. A step returns the new `Db` together with the
 * outcome, because some requests fail only after they have written (the
 * reset-mail failure of forgot-password, the missing profile of activation).
 *
 * The current time is an integer number of milliseconds, random codes are
 * parameters, and bcrypt is a pair of uninterpreted functions `hash` and
 * `matches` passed in by the caller.
 */
module AuthSpec {
  import Js
  import opened Wrappers

  /** A stored field as Mongoose returns it: never set or removed by `$unset`, null, or a value. */
  datatype Maybe<T> = Undefined | Null | Defined(value: T)

  /** JavaScript truthiness of an optional string: defined, not null, not empty. */
  predicate Present(m: Maybe<string>)
  {
    m.Defined? && m.value != ""
  }

  /** Window of a registration's activation code: 3 minutes. */
  const ActivationWindow: int := 3 * 60 * 1000
  /** Window of the code sent by forgot-password: 15 minutes. */
  const ForgotWindow: int := 15 * 60 * 1000
  /** Window written by both resend flows: 3 minutes. */
  const ResendWindow: int := 3 * 60 * 1000
  /** Roles whose admin profile is deleted along with a replaced inactive registration. */
  const AdminRoles: set<string> := {"ADMIN", "SUPER_ADMIN"}

  const MsgInvalidRole := "Valid Role is required!"
  const MsgMissingFields := "Email, Password, and Confirm Password are required!"
  const MsgRegisterMismatch := "Password and Confirm Password didn't match"
  const MsgEmailExists := "Email already exists"
  const MsgUserNotFound := "User not found"
  const MsgCodeMismatch := "Code didn't match!"
  const MsgNoSuchUser := "User does not exist"
  const MsgActivateFirst := "Please activate your account then try to login"
  const MsgBlocked := "You are blocked. Contact support"
  const MsgWrongPassword := "Password is incorrect"
  const MsgForgotNoUser := "User does not found!"
  const MsgMailFailed := "mail transport failure"
  const MsgNoAccount := "Account does not exist!"
  const MsgInvalidResetCode := "Invalid reset code!"
  const MsgResetCodeExpired := "Reset code has expired!"
  const MsgResetMismatch := "Passwords do not match"
  const MsgResetNoUser := "User not found!"
  const MsgNotVerified := "Your OTP is not verified!"
  const MsgChangeMismatch := "Password and confirm password do not match"
  const MsgOldPasswordWrong := "password is incorrect"
  const MsgEmailNotFound := "Email not found!"
  const MsgNullLookup := "Cannot read properties of null"

  /** One authentication record (the Auth collection). */
  datatype Credential = Credential(
    id: nat,
    email: string,
    name: Js.JsValue,
    role: string,
    password: string,
    isActive: bool,
    isBlock: bool,
    activationCode: Maybe<string>,
    expirationTime: Maybe<int>,
    verifyCode: Maybe<string>,
    verifyExpire: Maybe<int>,
    codeVerify: Maybe<bool>)

  /** An admin profile (the Admin collection), linked to its credential by `authId`. */
  datatype Profile = Profile(id: nat, authId: nat, email: string, details: Js.Object)

  /** The persisted state: credentials by email, profiles by `authId`, and the next fresh object id. */
  datatype Db = Db(creds: map<string, Credential>, profiles: map<nat, Profile>, nextId: nat)

  /** An `ApiError` carries the literal status; a `Crash` is an unclassified exception (a null dereference). */
  datatype AuthError = ApiError(status: int, message: string) | Crash(reason: string)

  /** The state after a request and what the request answered. */
  datatype Step<T> = Step(db: Db, result: Result<T, AuthError>)

  /** Claims of the access and refresh tokens; the signed tokens themselves are opaque. */
  datatype Claims = Claims(authId: nat, role: string, userId: nat)

  datatype Registered = Registered(profile: Profile, role: string)
  datatype Activated = Activated(claims: Claims, user: Credential)
  datatype LoggedIn = LoggedIn(id: nat, claims: Claims, user: Profile)

  /** The registration body: the four named fields and everything else. */
  datatype RegisterPayload = RegisterPayload(
    role: Maybe<string>,
    email: Maybe<string>,
    password: Maybe<string>,
    confirmPassword: Maybe<string>,
    other: Js.Object)

  /**
   * The store invariant: each credential sits under its own email, object ids
   * are below `nextId` and tell credentials apart, and each profile sits under
   * the id of the credential it was created for.
   */
  ghost predicate WellFormed(db: Db)
  {
    && (forall e :: e in db.creds ==> db.creds[e].email == e && db.creds[e].id < db.nextId)
    && (forall e1, e2 :: e1 in db.creds && e2 in db.creds && db.creds[e1].id == db.creds[e2].id ==> e1 == e2)
    && (forall a :: a in db.profiles ==> db.profiles[a].authId == a && a < db.nextId && db.profiles[a].id < db.nextId)
  }

  function Refuse<T>(db: Db, status: int, message: string): (out: Step<T>)
  {
    Step(db, Failure(ApiError(status, message)))
  }

  // ---------------------------------------------------------------- register

  /** The four guards of registration, any of which refuses it with 400. */
  predicate RegisterRefused(db: Db, p: RegisterPayload, roles: set<string>)
  {
    || !(Present(p.role) && p.role.value in roles)
    || !Present(p.password) || !Present(p.confirmPassword) || !Present(p.email)
    || p.password != p.confirmPassword
    || (p.email.value in db.creds && db.creds[p.email.value].isActive)
  }

  /** Deleting the inactive credential of `email`, and its profile when its role is an admin role. */
  function Purge(db: Db, email: string): (db': Db)
    requires email in db.creds
  {
    var gone := db.creds[email];
    Db(db.creds - {email},
       if gone.role in AdminRoles then db.profiles - {gone.id} else db.profiles,
       db.nextId)
  }

  /** Whether registering `email` deletes the profile under `a`: the replaced inactive account's, for an admin role. */
  ghost predicate ProfileReplaced(db: Db, email: string, a: nat)
  {
    email in db.creds && a == db.creds[email].id && db.creds[email].role in AdminRoles
  }

  /**
   * What a successful registration leaves in `db'`, starting from `db`: the
   * new inactive credential with every field fixed, the other credentials
   * unchanged, the new profile with the body's other details, no other
   * profile added or changed, a replaced admin profile gone, and two object
   * ids used.
   */
  ghost predicate RegisteredFresh(db: Db, db': Db, p: RegisterPayload, code: string, now: int)
    requires Present(p.email) && p.role.Defined? && Present(p.password)
  {
    var e := p.email.value;
    var id := db.nextId;
    && e in db'.creds
    && db'.creds[e].id == id && db'.creds[e].email == e && db'.creds[e].name == Js.Get(p.other, "name")
    && db'.creds[e].role == p.role.value && db'.creds[e].password == p.password.value
    && !db'.creds[e].isActive && !db'.creds[e].isBlock
    && db'.creds[e].activationCode == Defined(code)
    && db'.creds[e].expirationTime == Defined(now + ActivationWindow)
    && db'.creds[e].verifyCode == Undefined && db'.creds[e].verifyExpire == Undefined
    && db'.creds[e].codeVerify == Undefined
    && db'.creds - {e} == db.creds - {e}
    && id in db'.profiles && db'.profiles[id] == Profile(id + 1, id, e, p.other - {"authId", "email"})
    && (forall a :: a in db'.profiles <==> a == id || (a in db.profiles && !ProfileReplaced(db, e, a)))
    && (forall a :: a in db'.profiles && a != id ==> db'.profiles[a] == db.profiles[a])
    && db'.nextId == id + 2
  }

  /**
   * `registrationAccount`: refuses on a missing or unknown role, a missing
   * field, different passwords or an active account for the email; otherwise
   * replaces an inactive account, creates the credential with a fresh
   * activation code valid for 3 minutes, and creates its admin profile.
   */
  function Register(db: Db, p: RegisterPayload, roles: set<string>, code: string, now: int): (out: Step<Registered>)
    ensures out.result.Failure? <==> RegisterRefused(db, p, roles)
    ensures out.result.Failure? ==> out.db == db && out.result.error.ApiError? && out.result.error.status == 400
    ensures (Present(p.role) && p.role.value in roles && Present(p.password) && p.password == p.confirmPassword && Present(p.email)
             && p.email.value in db.creds && db.creds[p.email.value].isActive)
              ==> out.result == Failure(ApiError(400, MsgEmailExists))
    ensures out.result.Success? ==> RegisteredFresh(db, out.db, p, code, now)
    ensures out.result.Success? ==> out.result.value == Registered(out.db.profiles[db.nextId], p.role.value)
    ensures (out.result.Success? && WellFormed(db) && p.email.value in db.creds && db.creds[p.email.value].role in AdminRoles)
              ==> db.creds[p.email.value].id !in out.db.profiles
    ensures WellFormed(db) ==> WellFormed(out.db)
  {
    if !(Present(p.role) && p.role.value in roles) then Refuse(db, 400, MsgInvalidRole)
    else if !Present(p.password) || !Present(p.confirmPassword) || !Present(p.email) then Refuse(db, 400, MsgMissingFields)
    else if p.password != p.confirmPassword then Refuse(db, 400, MsgRegisterMismatch)
    else if p.email.value in db.creds && db.creds[p.email.value].isActive then Refuse(db, 400, MsgEmailExists)
    else
      var e := p.email.value;
      var purged := if e in db.creds then Purge(db, e) else db;
      var id := db.nextId;
      var cred := Credential(id, e, Js.Get(p.other, "name"), p.role.value, p.password.value, false, false,
                             Defined(code), Defined(now + ActivationWindow), Undefined, Undefined, Undefined);
      var profile := Profile(id + 1, id, e, p.other - {"authId", "email"});
      Step(Db(purged.creds[e := cred], purged.profiles[id := profile], id + 2), Success(Registered(profile, p.role.value)))
  }

  // ---------------------------------------------------------------- activate

  /**
   * `activateAccount`: 400 unless a record exists and its stored code is
   * strictly equal to the submitted one; otherwise sets `isActive` and nothing
   * else. The expiry is not consulted and the code is not consumed. Looking
   * up the profile afterwards dereferences null when there is none.
   */
  function Activate(db: Db, email: string, code: Maybe<string>): (out: Step<Activated>)
    ensures (out.result.Failure? && out.result.error.ApiError?) <==> email !in db.creds || db.creds[email].activationCode != code
    ensures out.result.Failure? && out.result.error.ApiError? ==> out.db == db && out.result.error.status == 400
    ensures (email in db.creds && db.creds[email].activationCode == code)
              ==> out.db == db.(creds := db.creds[email := db.creds[email].(isActive := true)])
    ensures out.result.Success? <==> email in db.creds && db.creds[email].activationCode == code && db.creds[email].id in db.profiles
    ensures out.result.Success? ==> out.result.value.user == out.db.creds[email] && out.result.value.user.isActive
    ensures out.result.Success? ==>
              out.result.value.claims == Claims(db.creds[email].id, db.creds[email].role, db.profiles[db.creds[email].id].id)
    ensures WellFormed(db) ==> WellFormed(out.db)
  {
    if email !in db.creds then Refuse(db, 400, MsgUserNotFound)
    else
      var c := db.creds[email];
      if c.activationCode != code then Refuse(db, 400, MsgCodeMismatch)
      else
        var user := c.(isActive := true);
        var db' := db.(creds := db.creds[email := user]);
        if c.id !in db.profiles then Step(db', Failure(Crash(MsgNullLookup)))
        else Step(db', Success(Activated(Claims(c.id, c.role, db.profiles[c.id].id), user)))
  }

  // ------------------------------------------------------------------- login

  /** Every check of login passes: the account exists, is active, is not blocked and the password matches. */
  predicate LoginAccepted(db: Db, email: string, password: string, matches: (string, string) -> bool)
  {
    && email in db.creds
    && db.creds[email].isActive
    && !db.creds[email].isBlock
    && (db.creds[email].password == "" || matches(password, db.creds[email].password))
  }

  /**
   * `loginAccount`: read only. The checks run in this order: unknown email
   * 404, inactive 404, blocked 403, stored password present and not matching
   * 404. An empty stored password skips the password check.
   */
  function Login(db: Db, email: string, password: string, matches: (string, string) -> bool): (r: Result<LoggedIn, AuthError>)
    ensures email !in db.creds ==> r == Failure(ApiError(404, MsgNoSuchUser))
    ensures email in db.creds && !db.creds[email].isActive ==> r == Failure(ApiError(404, MsgActivateFirst))
    ensures email in db.creds && db.creds[email].isActive && db.creds[email].isBlock ==> r == Failure(ApiError(403, MsgBlocked))
    ensures (email in db.creds && db.creds[email].isActive && !db.creds[email].isBlock
             && db.creds[email].password != "" && !matches(password, db.creds[email].password))
              ==> r == Failure(ApiError(404, MsgWrongPassword))
    ensures r.Success? <==> LoginAccepted(db, email, password, matches) && db.creds[email].id in db.profiles
    ensures r.Success? ==> r.value.id == db.creds[email].id && r.value.user == db.profiles[r.value.id]
    ensures r.Success? ==> r.value.claims == Claims(r.value.id, db.creds[email].role, r.value.user.id)
  {
    if email !in db.creds then Failure(ApiError(404, MsgNoSuchUser))
    else
      var c := db.creds[email];
      if !c.isActive then Failure(ApiError(404, MsgActivateFirst))
      else if c.isBlock then Failure(ApiError(403, MsgBlocked))
      else if c.password != "" && !matches(password, c.password) then Failure(ApiError(404, MsgWrongPassword))
      else if c.id !in db.profiles then Failure(Crash(MsgNullLookup))
      else Success(LoggedIn(c.id, Claims(c.id, c.role, db.profiles[c.id].id), db.profiles[c.id]))
  }

  // --------------------------------------------------------- forgot password

  /**
   * `forgotPass`: an unknown email dereferences null (unclassified error); an
   * empty stored email is 400. Otherwise stores the code with a 15-minute
   * window, then awaits the reset mail: a send failure is a 500 that comes
   * after the code has been stored.
   */
  function Forgot(db: Db, email: string, code: string, now: int, mailSent: bool): (out: Step<()>)
    ensures email !in db.creds ==> out.db == db && out.result == Failure(Crash(MsgNullLookup))
    ensures email in db.creds && db.creds[email].email == "" ==> out == Refuse(db, 400, MsgForgotNoUser)
    ensures email in db.creds && db.creds[email].email != "" ==>
              out.db == db.(creds := db.creds[email := db.creds[email].(verifyCode := Defined(code),
                                                                       verifyExpire := Defined(now + ForgotWindow))])
    ensures out.result.Success? <==> email in db.creds && db.creds[email].email != "" && mailSent
    ensures email in db.creds && db.creds[email].email != "" && !mailSent ==> out.result == Failure(ApiError(500, MsgMailFailed))
    ensures WellFormed(db) ==> WellFormed(out.db)
  {
    if email !in db.creds then Step(db, Failure(Crash(MsgNullLookup)))
    else
      var c := db.creds[email];
      if c.email == "" then Refuse(db, 400, MsgForgotNoUser)
      else
        var db' := db.(creds := db.creds[email := c.(verifyCode := Defined(code), verifyExpire := Defined(now + ForgotWindow))]);
        Step(db', if mailSent then Success(()) else Failure(ApiError(500, MsgMailFailed)))
  }

  // -------------------------------------------------------- verify reset code

  /**
   * `new Date() > verifyExpire`: a date compares as its milliseconds, null as
   * 0, and undefined as NaN, which is never smaller.
   */
  predicate ExpiredAt(now: int, expire: Maybe<int>)
  {
    match expire
    case Undefined => false
    case Null => now > 0
    case Defined(t) => now > t
  }

  /** The three checks of reset-code verification. */
  predicate ResetCodeAccepted(db: Db, email: string, code: Maybe<string>, now: int)
  {
    email in db.creds && db.creds[email].verifyCode == code && !ExpiredAt(now, db.creds[email].verifyExpire)
  }

  /**
   * `checkIsValidForgetActivationCode`: 400 for a missing record, a code that
   * is not strictly equal, or `now` past the window; on success sets
   * `codeVerify` and nulls the stored code.
   */
  function VerifyResetCode(db: Db, email: string, code: Maybe<string>, now: int): (out: Step<()>)
    ensures out.result.Success? <==> ResetCodeAccepted(db, email, code, now)
    ensures out.result.Failure? ==> out.db == db && out.result.error.ApiError? && out.result.error.status == 400
    ensures (email in db.creds && db.creds[email].verifyCode == code && ExpiredAt(now, db.creds[email].verifyExpire))
              ==> out.result == Failure(ApiError(400, MsgResetCodeExpired))
    ensures out.result.Success? ==>
              out.db == db.(creds := db.creds[email := db.creds[email].(codeVerify := Defined(true), verifyCode := Null)])
    ensures WellFormed(db) ==> WellFormed(out.db)
  {
    if email !in db.creds then Refuse(db, 400, MsgNoAccount)
    else
      var c := db.creds[email];
      if c.verifyCode != code then Refuse(db, 400, MsgInvalidResetCode)
      else if ExpiredAt(now, c.verifyExpire) then Refuse(db, 400, MsgResetCodeExpired)
      else Step(db.(creds := db.creds[email := c.(codeVerify := Defined(true), verifyCode := Null)]), Success(()))
  }

  // ---------------------------------------------------------- reset password

  /**
   * `resetPassword`: 400 when the passwords differ (checked before the
   * lookup), when the record is missing, or when `codeVerify` is not true.
   * On success stores the hash of the new password and clears `codeVerify`.
   */
  function Reset(db: Db, email: string, newPassword: string, confirmPassword: string, hash: string -> string): (out: Step<()>)
    ensures out.result.Success? <==> newPassword == confirmPassword && email in db.creds && db.creds[email].codeVerify == Defined(true)
    ensures out.result.Failure? ==> out.db == db && out.result.error.ApiError? && out.result.error.status == 400
    ensures newPassword != confirmPassword ==> out.result == Failure(ApiError(400, MsgResetMismatch))
    ensures out.result.Success? ==>
              out.db == db.(creds := db.creds[email := db.creds[email].(password := hash(newPassword), codeVerify := Defined(false))])
    ensures WellFormed(db) ==> WellFormed(out.db)
  {
    if newPassword != confirmPassword then Refuse(db, 400, MsgResetMismatch)
    else if email !in db.creds then Refuse(db, 400, MsgResetNoUser)
    else
      var c := db.creds[email];
      if c.codeVerify != Defined(true) then Refuse(db, 400, MsgNotVerified)
      else Step(db.(creds := db.creds[email := c.(password := hash(newPassword), codeVerify := Defined(false))]), Success(()))
  }

  // --------------------------------------------------------- change password

  /** Some credential has object id `authId`. */
  ghost predicate HasId(db: Db, authId: nat)
  {
    exists e :: e in db.creds && db.creds[e].id == authId
  }

  /** The email under which the credential with object id `authId` is stored. */
  ghost function EmailOf(db: Db, authId: nat): (e: string)
    requires HasId(db, authId)
    ensures e in db.creds && db.creds[e].id == authId
  {
    var e :| e in db.creds && db.creds[e].id == authId; e
  }

  /** The stored password of `authId` is absent or matches `oldPassword`. */
  ghost predicate OldPasswordAccepted(db: Db, authId: nat, oldPassword: string, matches: (string, string) -> bool)
    requires HasId(db, authId)
  {
    var c := db.creds[EmailOf(db, authId)];
    c.password == "" || matches(oldPassword, c.password)
  }

  /**
   * `changePassword`: 400 when the new passwords differ, 404 when no
   * credential has the id, 402 when a stored password does not match the
   * old one; on success stores the new password exactly as given.
   */
  ghost function Change(db: Db, authId: nat, oldPassword: string, newPassword: string, confirmPassword: string,
                        matches: (string, string) -> bool): (out: Step<()>)
    ensures out.result.Failure? ==> out.db == db && out.result.error.ApiError?
    ensures newPassword != confirmPassword ==> out.result == Failure(ApiError(400, MsgChangeMismatch))
    ensures newPassword == confirmPassword && !HasId(db, authId) ==> out.result == Failure(ApiError(404, MsgNoAccount))
    ensures (newPassword == confirmPassword && HasId(db, authId) && !OldPasswordAccepted(db, authId, oldPassword, matches))
              ==> out.result == Failure(ApiError(402, MsgOldPasswordWrong))
    ensures out.result.Success? <==>
              newPassword == confirmPassword && HasId(db, authId) && OldPasswordAccepted(db, authId, oldPassword, matches)
    ensures out.result.Success? ==>
              var e := EmailOf(db, authId);
              out.db == db.(creds := db.creds[e := db.creds[e].(password := newPassword)])
    ensures WellFormed(db) ==> WellFormed(out.db)
  {
    if newPassword != confirmPassword then Refuse(db, 400, MsgChangeMismatch)
    else if !HasId(db, authId) then Refuse(db, 404, MsgNoAccount)
    else
      var e := EmailOf(db, authId);
      var c := db.creds[e];
      if c.password != "" && !matches(oldPassword, c.password) then Refuse(db, 402, MsgOldPasswordWrong)
      else Step(db.(creds := db.creds[e := c.(password := newPassword)]), Success(()))
  }

  // ------------------------------------------------------------ resend flows

  /**
   * `resendCodeActivationAccount`: an unknown email dereferences null; an
   * empty stored email is 400. Otherwise a new activation code is stored and
   * its 3-minute window is written to `verifyExpire`; `expirationTime`, which
   * the activation sweep reads, is left as it was.
   */
  function ResendActivation(db: Db, email: string, code: string, now: int): (out: Step<()>)
    ensures email !in db.creds ==> out.db == db && out.result == Failure(Crash(MsgNullLookup))
    ensures email in db.creds && db.creds[email].email == "" ==> out == Refuse(db, 400, MsgEmailNotFound)
    ensures out.result.Success? <==> email in db.creds && db.creds[email].email != ""
    ensures out.result.Success? ==>
              out.db == db.(creds := db.creds[email := db.creds[email].(activationCode := Defined(code),
                                                                       verifyExpire := Defined(now + ResendWindow))])
    ensures out.result.Success? ==> out.db.creds[email].expirationTime == db.creds[email].expirationTime
    ensures WellFormed(db) ==> WellFormed(out.db)
  {
    if email !in db.creds then Step(db, Failure(Crash(MsgNullLookup)))
    else
      var c := db.creds[email];
      if c.email == "" then Refuse(db, 400, MsgEmailNotFound)
      else Step(db.(creds := db.creds[email := c.(activationCode := Defined(code), verifyExpire := Defined(now + ResendWindow))]),
                Success(()))
  }

  /**
   * `resendCodeForgotAccount`: 400 for a missing email and for an unknown
   * one; otherwise stores a new reset code with a 3-minute window.
   */
  function ResendForgot(db: Db, email: Maybe<string>, code: string, now: int): (out: Step<()>)
    ensures !Present(email) ==> out == Refuse(db, 400, MsgEmailNotFound)
    ensures Present(email) && email.value !in db.creds ==> out == Refuse(db, 400, MsgResetNoUser)
    ensures out.result.Success? <==> Present(email) && email.value in db.creds
    ensures out.result.Success? ==>
              out.db == db.(creds := db.creds[email.value := db.creds[email.value].(verifyCode := Defined(code),
                                                                                   verifyExpire := Defined(now + ResendWindow))])
    ensures WellFormed(db) ==> WellFormed(out.db)
  {
    if !Present(email) then Refuse(db, 400, MsgEmailNotFound)
    else if email.value !in db.creds then Refuse(db, 400, MsgResetNoUser)
    else
      var c := db.creds[email.value];
      Step(db.(creds := db.creds[email.value := c.(verifyCode := Defined(code), verifyExpire := Defined(now + ResendWindow))]),
           Success(()))
  }

  // ---------------------------------------------------------------- sweepers

  /** The filter of the activation sweep: inactive, window passed, and a code that is neither null nor unset. */
  predicate ActivationCodeStale(c: Credential, now: int)
  {
    !c.isActive && c.expirationTime.Defined? && c.expirationTime.value <= now && c.activationCode.Defined?
  }

  /** The filter of the code-verify sweep: inactive and reset window passed. */
  predicate CodeVerifyStale(c: Credential, now: int)
  {
    !c.isActive && c.verifyExpire.Defined? && c.verifyExpire.value <= now
  }

  /**
   * The body of the first periodic job: `$unset` of `activationCode` on every
   * record the filter selects. No record is added or dropped, active records
   * and unselected records are untouched, and no other field changes.
   */
  function SweepActivationCodes(creds: map<string, Credential>, now: int): (swept: map<string, Credential>)
    ensures swept.Keys == creds.Keys
    ensures forall e :: e in creds && !ActivationCodeStale(creds[e], now) ==> swept[e] == creds[e]
    ensures forall e :: e in creds && creds[e].isActive ==> swept[e] == creds[e]
    ensures forall e :: e in creds ==> (swept[e].activationCode.Defined? <==> creds[e].activationCode.Defined? && !ActivationCodeStale(creds[e], now))
    ensures forall e :: e in creds && ActivationCodeStale(creds[e], now) ==> swept[e].activationCode == Undefined
    ensures forall e :: e in creds ==> swept[e].(activationCode := creds[e].activationCode) == creds[e]
  {
    map e | e in creds :: if ActivationCodeStale(creds[e], now) then creds[e].(activationCode := Undefined) else creds[e]
  }

  /**
   * The body of the second periodic job: `$unset` of `codeVerify` on every
   * inactive record whose reset window has passed; nothing else changes.
   */
  function SweepCodeVerify(creds: map<string, Credential>, now: int): (swept: map<string, Credential>)
    ensures swept.Keys == creds.Keys
    ensures forall e :: e in creds && !CodeVerifyStale(creds[e], now) ==> swept[e] == creds[e]
    ensures forall e :: e in creds && creds[e].isActive ==> swept[e] == creds[e]
    ensures forall e :: e in creds && CodeVerifyStale(creds[e], now) ==> swept[e].codeVerify == Undefined
    ensures forall e :: e in creds ==> swept[e].(codeVerify := creds[e].codeVerify) == creds[e]
  {
    map e | e in creds :: if CodeVerifyStale(creds[e], now) then creds[e].(codeVerify := Undefined) else creds[e]
  }

  /** Both sweeps keep the store invariant: they only rewrite code fields of existing records. */
  lemma SweepsPreserveWellFormed(db: Db, now: int)
    requires WellFormed(db)
    ensures WellFormed(db.(creds := SweepActivationCodes(db.creds, now)))
    ensures WellFormed(db.(creds := SweepCodeVerify(db.creds, now)))
  {
  }
}
