/**
 * The authentication service as it runs: one object holding the Auth and
 * Admin collections, whose request handlers check their guards in order and
 * then update stored records field by field. Every handler is proved to do
 * exactly what the matching step function of `AuthSpec` describes, and to
 * keep the store invariant `WellFormed`.
 */
module AuthService {
  import opened Wrappers
  import opened AuthSpec

  class AuthStore {
    /** The Auth collection, keyed by email. */
    var creds: map<string, Credential>
    /** The Admin collection, keyed by the `authId` of each profile. */
    var profiles: map<nat, Profile>
    /** The next object id the database hands out. */
    var nextId: nat

    /** The values of `ENUM_USER_ROLE`. */
    const roles: set<string>
    /** bcrypt's hash and compare. */
    const hash: string -> string
    const matches: (string, string) -> bool

    function State(): Db
      reads this
    {
      Db(creds, profiles, nextId)
    }

    ghost predicate Valid()
      reads this
    {
      WellFormed(State())
    }

    constructor (roles: set<string>, hash: string -> string, matches: (string, string) -> bool)
      ensures Valid() && State() == Db(map[], map[], 0)
      ensures this.roles == roles && this.hash == hash && this.matches == matches
    {
      creds, profiles, nextId := map[], map[], 0;
      this.roles, this.hash, this.matches := roles, hash, matches;
    }

    /** `registrationAccount`. */
    method RegistrationAccount(p: RegisterPayload, code: string, now: int) returns (r: Result<Registered, AuthError>)
      requires Valid()
      modifies this
      ensures Valid()
      ensures Step(State(), r) == Register(old(State()), p, roles, code, now)
    {
      if !(Present(p.role) && p.role.value in roles) {
        return Failure(ApiError(400, MsgInvalidRole));
      }
      if !Present(p.password) || !Present(p.confirmPassword) || !Present(p.email) {
        return Failure(ApiError(400, MsgMissingFields));
      }
      if p.password != p.confirmPassword {
        return Failure(ApiError(400, MsgRegisterMismatch));
      }
      var email := p.email.value;
      if email in creds && creds[email].isActive {
        return Failure(ApiError(400, MsgEmailExists));
      }
      ghost var purged := if email in creds then Purge(State(), email) else State();
      assert !RegisterRefused(State(), p, roles);
      if email in creds {
        var existing := creds[email];
        if existing.role in AdminRoles {
          profiles := profiles - {existing.id};
        }
        creds := creds - {email};
      }
      assert State() == purged;
      var authId := nextId;
      var account := Credential(authId, email, Js.Get(p.other, "name"), p.role.value, p.password.value, false, false,
                                Defined(code), Defined(now + ActivationWindow), Undefined, Undefined, Undefined);
      creds := creds[email := account];
      var profile := Profile(authId + 1, authId, email, p.other - {"authId", "email"});
      profiles := profiles[authId := profile];
      nextId := nextId + 2;
      r := Success(Registered(profile, p.role.value));
      assert Register(old(State()), p, roles, code, now) == Step(State(), r);
    }

    /** `activateAccount`. */
    method ActivateAccount(email: string, code: Maybe<string>) returns (r: Result<Activated, AuthError>)
      requires Valid()
      modifies this
      ensures Valid()
      ensures Step(State(), r) == Activate(old(State()), email, code)
    {
      if email !in creds {
        return Failure(ApiError(400, MsgUserNotFound));
      }
      var existing := creds[email];
      if existing.activationCode != code {
        return Failure(ApiError(400, MsgCodeMismatch));
      }
      var user := existing.(isActive := true);
      creds := creds[email := user];
      if existing.id !in profiles {
        return Failure(Crash(MsgNullLookup));
      }
      r := Success(Activated(Claims(existing.id, existing.role, profiles[existing.id].id), user));
    }

    /** `loginAccount`: the one handler that only reads. */
    method LoginAccount(email: string, password: string) returns (r: Result<LoggedIn, AuthError>)
      ensures r == Login(State(), email, password, matches)
      ensures r.Success? ==> email in creds && creds[email].isActive && !creds[email].isBlock
    {
      if email !in creds {
        return Failure(ApiError(404, MsgNoSuchUser));
      }
      var account := creds[email];
      if !account.isActive {
        return Failure(ApiError(404, MsgActivateFirst));
      }
      if account.isBlock {
        return Failure(ApiError(403, MsgBlocked));
      }
      if account.password != "" && !matches(password, account.password) {
        return Failure(ApiError(404, MsgWrongPassword));
      }
      if account.id !in profiles {
        return Failure(Crash(MsgNullLookup));
      }
      var details := profiles[account.id];
      r := Success(LoggedIn(account.id, Claims(account.id, account.role, details.id), details));
    }

    /** `forgotPass`; `mailSent` is whether the awaited reset mail went out. */
    method ForgotPass(email: string, code: string, now: int, mailSent: bool) returns (r: Result<(), AuthError>)
      requires Valid()
      modifies this
      ensures Valid()
      ensures Step(State(), r) == Forgot(old(State()), email, code, now, mailSent)
    {
      if email !in creds {
        return Failure(Crash(MsgNullLookup));
      }
      var user := creds[email];
      if user.email == "" {
        return Failure(ApiError(400, MsgForgotNoUser));
      }
      user := user.(verifyCode := Defined(code), verifyExpire := Defined(now + ForgotWindow));
      creds := creds[email := user];
      if !mailSent {
        return Failure(ApiError(500, MsgMailFailed));
      }
      r := Success(());
    }

    /** `checkIsValidForgetActivationCode`. */
    method CheckIsValidForgetActivationCode(email: string, code: Maybe<string>, now: int) returns (r: Result<(), AuthError>)
      requires Valid()
      modifies this
      ensures Valid()
      ensures Step(State(), r) == VerifyResetCode(old(State()), email, code, now)
    {
      if email !in creds {
        return Failure(ApiError(400, MsgNoAccount));
      }
      var account := creds[email];
      if account.verifyCode != code {
        return Failure(ApiError(400, MsgInvalidResetCode));
      }
      if ExpiredAt(now, account.verifyExpire) {
        return Failure(ApiError(400, MsgResetCodeExpired));
      }
      creds := creds[email := account.(codeVerify := Defined(true))];
      creds := creds[email := creds[email].(verifyCode := Null)];
      r := Success(());
    }

    /** `resetPassword`. */
    method ResetPassword(email: string, newPassword: string, confirmPassword: string) returns (r: Result<(), AuthError>)
      requires Valid()
      modifies this
      ensures Valid()
      ensures Step(State(), r) == Reset(old(State()), email, newPassword, confirmPassword, hash)
    {
      if newPassword != confirmPassword {
        return Failure(ApiError(400, MsgResetMismatch));
      }
      if email !in creds {
        return Failure(ApiError(400, MsgResetNoUser));
      }
      var auth := creds[email];
      if auth.codeVerify != Defined(true) {
        return Failure(ApiError(400, MsgNotVerified));
      }
      creds := creds[email := auth.(password := hash(newPassword), codeVerify := Defined(false))];
      r := Success(());
    }

    /** `changePassword`, for the credential with object id `authId`. */
    method ChangePassword(authId: nat, oldPassword: string, newPassword: string, confirmPassword: string)
      returns (r: Result<(), AuthError>)
      requires Valid()
      modifies this
      ensures Valid()
      ensures Step(State(), r) == Change(old(State()), authId, oldPassword, newPassword, confirmPassword, matches)
    {
      if newPassword != confirmPassword {
        return Failure(ApiError(400, MsgChangeMismatch));
      }
      if !(exists e :: e in creds && creds[e].id == authId) {
        return Failure(ApiError(404, MsgNoAccount));
      }
      var email :| email in creds && creds[email].id == authId;
      assert email == EmailOf(State(), authId);
      var user := creds[email];
      if user.password != "" && !matches(oldPassword, user.password) {
        return Failure(ApiError(402, MsgOldPasswordWrong));
      }
      creds := creds[email := user.(password := newPassword)];
      r := Success(());
    }

    /** `resendCodeActivationAccount`; the notification mail is not awaited. */
    method ResendCodeActivationAccount(email: string, code: string, now: int) returns (r: Result<(), AuthError>)
      requires Valid()
      modifies this
      ensures Valid()
      ensures Step(State(), r) == ResendActivation(old(State()), email, code, now)
    {
      if email !in creds {
        return Failure(Crash(MsgNullLookup));
      }
      var user := creds[email];
      if user.email == "" {
        return Failure(ApiError(400, MsgEmailNotFound));
      }
      creds := creds[email := user.(activationCode := Defined(code), verifyExpire := Defined(now + ResendWindow))];
      r := Success(());
    }

    /** `resendCodeForgotAccount`; the notification mail is not awaited. */
    method ResendCodeForgotAccount(email: Maybe<string>, code: string, now: int) returns (r: Result<(), AuthError>)
      requires Valid()
      modifies this
      ensures Valid()
      ensures Step(State(), r) == ResendForgot(old(State()), email, code, now)
    {
      if !Present(email) {
        return Failure(ApiError(400, MsgEmailNotFound));
      }
      if email.value !in creds {
        return Failure(ApiError(400, MsgResetNoUser));
      }
      var user := creds[email.value];
      creds := creds[email.value := user.(verifyCode := Defined(code), verifyExpire := Defined(now + ResendWindow))];
      r := Success(());
    }

    /** One tick of the first periodic job: unset stale activation codes. */
    method UnsetExpiredActivationCodes(now: int)
      requires Valid()
      modifies this
      ensures Valid()
      ensures creds == SweepActivationCodes(old(creds), now)
      ensures profiles == old(profiles) && nextId == old(nextId)
    {
      SweepsPreserveWellFormed(State(), now);
      creds := SweepActivationCodes(creds, now);
    }

    /** One tick of the second periodic job: unset `codeVerify` of stale inactive records. */
    method UnsetExpiredCodeVerify(now: int)
      requires Valid()
      modifies this
      ensures Valid()
      ensures creds == SweepCodeVerify(old(creds), now)
      ensures profiles == old(profiles) && nextId == old(nextId)
    {
      SweepsPreserveWellFormed(State(), now);
      creds := SweepCodeVerify(creds, now);
    }
  }
}
