/**
 * Properties of the account lifecycle that relate several requests: the
 * one-shot reset code and its gaps, replayable activation, the interplay of
 * the sweepers with the code windows, re-registration, and a property of
 * every sequence of requests: a successful password reset is always backed
 * by its own earlier successful code verification.
 */
module AuthProperties {
  import opened Wrappers
  import opened AuthSpec

  // ------------------------------------------------------------ reset codes

  /** A verified reset code cannot verify a second time: the stored code is now null. */
  lemma VerifiedResetCodeNotReusable(db: Db, email: string, code: string, now: int, later: int)
    requires VerifyResetCode(db, email, Defined(code), now).result.Success?
    ensures VerifyResetCode(VerifyResetCode(db, email, Defined(code), now).db, email, Defined(code), later).result
            == Failure(ApiError(400, MsgInvalidResetCode))
  {
  }

  /**
   * The null left behind by a verification is itself strictly equal to a
   * submitted null, so a request carrying `code: null` verifies again for as
   * long as the window lasts.
   */
  lemma SubmittedNullVerifiesAgain(db: Db, email: string, code: Maybe<string>, now: int, later: int)
    requires VerifyResetCode(db, email, code, now).result.Success?
    ensures var db' := VerifyResetCode(db, email, code, now).db;
            VerifyResetCode(db', email, Null, later).result.Success? <==> !ExpiredAt(later, db.creds[email].verifyExpire)
  {
  }

  /**
   * A freshly registered account has no reset code and no reset window, both
   * undefined: a verification request without a code passes at any time, and
   * a password reset follows. No code was ever issued.
   */
  lemma ResetWithoutIssuedCode(db: Db, p: RegisterPayload, roles: set<string>, code: string, now: int,
                               later: int, newPassword: string, hash: string -> string)
    requires Register(db, p, roles, code, now).result.Success?
    ensures var db1 := Register(db, p, roles, code, now).db;
            var db2 := VerifyResetCode(db1, p.email.value, Undefined, later).db;
            && VerifyResetCode(db1, p.email.value, Undefined, later).result.Success?
            && Reset(db2, p.email.value, newPassword, newPassword, hash).result.Success?
            && Reset(db2, p.email.value, newPassword, newPassword, hash).db.creds[p.email.value].password == hash(newPassword)
  {
  }

  /** A reset consumes the verification: a second reset, with any passwords, is refused as not verified. */
  lemma ResetIsOneShot(db: Db, email: string, newPassword: string, hash: string -> string, again: string, confirm: string)
    requires Reset(db, email, newPassword, newPassword, hash).result.Success?
    ensures again == confirm ==>
              Reset(Reset(db, email, newPassword, newPassword, hash).db, email, again, confirm, hash).result
              == Failure(ApiError(400, MsgNotVerified))
    ensures Reset(Reset(db, email, newPassword, newPassword, hash).db, email, again, confirm, hash).result.Failure?
  {
  }

  /**
   * The forgot-password window: the code verifies at exactly 15 minutes and
   * is refused as expired one millisecond later, e.g. at 16 minutes.
   */
  lemma ForgotCodeWindow(db: Db, email: string, code: string, t: int, mailSent: bool, late: int)
    requires email in db.creds && db.creds[email].email != ""
    requires late > t + ForgotWindow
    ensures var db' := Forgot(db, email, code, t, mailSent).db;
            && VerifyResetCode(db', email, Defined(code), t + ForgotWindow).result.Success?
            && VerifyResetCode(db', email, Defined(code), late).result == Failure(ApiError(400, MsgResetCodeExpired))
  {
  }

  /**
   * Resending the forgot code shortens the window to 3 minutes, and the old
   * code no longer matches.
   */
  lemma ResendForgotReplacesCode(db: Db, email: string, oldCode: string, code: string, t: int, now: int)
    requires Present(Defined(email)) && email in db.creds
    requires oldCode != code
    ensures var db' := ResendForgot(db, Defined(email), code, t).db;
            && VerifyResetCode(db', email, Defined(oldCode), now).result == Failure(ApiError(400, MsgInvalidResetCode))
            && (VerifyResetCode(db', email, Defined(code), now).result.Success? <==> now <= t + ResendWindow)
  {
  }

  /**
   * The code-verify sweep ends a verified reset only for inactive accounts:
   * after the window an inactive account's reset is refused, while an active
   * account keeps its verification through every sweep.
   */
  lemma CodeVerifySweepOnlyStopsInactiveResets(db: Db, email: string, code: Maybe<string>, t: int, now: int,
                                               newPassword: string, hash: string -> string)
    requires VerifyResetCode(db, email, code, t).result.Success?
    requires db.creds[email].verifyExpire.Defined? && db.creds[email].verifyExpire.value <= now
    ensures var db1 := VerifyResetCode(db, email, code, t).db;
            var db2 := db1.(creds := SweepCodeVerify(db1.creds, now));
            Reset(db2, email, newPassword, newPassword, hash).result.Success? <==> db.creds[email].isActive
  {
  }

  // ------------------------------------------------------------- activation

  /** Registering and then activating with the mailed code succeeds; any other code is refused with 400. */
  lemma RegisterThenActivate(db: Db, p: RegisterPayload, roles: set<string>, code: string, now: int, other: string)
    requires Register(db, p, roles, code, now).result.Success?
    requires other != code
    ensures var db1 := Register(db, p, roles, code, now).db;
            && Activate(db1, p.email.value, Defined(code)).result.Success?
            && Activate(db1, p.email.value, Defined(code)).db.creds[p.email.value].isActive
            && Activate(db1, p.email.value, Defined(other)).result == Failure(ApiError(400, MsgCodeMismatch))
  {
  }

  /** Activation neither expires nor consumes the code: repeating it succeeds and changes nothing more. */
  lemma ActivationReplays(db: Db, email: string, code: Maybe<string>)
    requires Activate(db, email, code).result.Success?
    ensures var db1 := Activate(db, email, code).db;
            Activate(db1, email, code) == Activate(db, email, code)
  {
  }

  /**
   * Once the activation sweep has unset a stale code, the stored code is
   * undefined, which a request without a code matches: the account is
   * activated without any code.
   */
  lemma SweptAccountActivatesWithoutCode(db: Db, email: string, now: int)
    requires email in db.creds && ActivationCodeStale(db.creds[email], now)
    ensures var swept := db.(creds := SweepActivationCodes(db.creds, now));
            && (var res := Activate(swept, email, Undefined).result; !(res.Failure? && res.error.ApiError?))
            && Activate(swept, email, Undefined).db.creds[email].isActive
  {
    var swept := db.(creds := SweepActivationCodes(db.creds, now));
    assert swept.creds[email].activationCode == Undefined;
  }

  /**
   * Resending an activation code does not move `expirationTime`: when the
   * registration window has already passed, the next sweep unsets the new
   * code at once, although its own 3-minute window is still open.
   */
  lemma ResentActivationCodeSweptAtOnce(db: Db, email: string, code: string, t: int, now: int)
    requires email in db.creds && db.creds[email].email != "" && !db.creds[email].isActive
    requires db.creds[email].expirationTime.Defined? && db.creds[email].expirationTime.value <= now
    ensures var db1 := ResendActivation(db, email, code, t).db;
            SweepActivationCodes(db1.creds, now)[email].activationCode == Undefined
  {
    var db1 := ResendActivation(db, email, code, t).db;
    assert ActivationCodeStale(db1.creds[email], now);
  }

  // --------------------------------------------------------- re-registration

  /**
   * Registering again over an inactive account replaces it: one credential
   * for the email, holding the new code. The first registration's profile
   * is deleted when its role is an admin role and survives otherwise.
   */
  lemma ReRegisterInactive(db: Db, p: RegisterPayload, q: RegisterPayload, roles: set<string>,
                           c1: string, t1: int, c2: string, t2: int)
    requires WellFormed(db)
    requires Register(db, p, roles, c1, t1).result.Success?
    requires q.email == p.email && q.role.Defined? && q.role.value in roles && Present(q.role)
    requires Present(q.password) && q.password == q.confirmPassword
    ensures var db1 := Register(db, p, roles, c1, t1).db;
            var db2 := Register(db1, q, roles, c2, t2).db;
            && Register(db1, q, roles, c2, t2).result.Success?
            && db2.creds[p.email.value].activationCode == Defined(c2)
            && db2.creds[p.email.value].id == db1.nextId
            && (db.nextId in db2.profiles <==> p.role.value !in AdminRoles)
  {
    var db1 := Register(db, p, roles, c1, t1).db;
    assert !db1.creds[p.email.value].isActive;
    assert db1.creds[p.email.value].id == db.nextId;
    assert db.nextId < db1.nextId;
  }

  /** An activated email can never be registered again. */
  lemma ActiveEmailCannotReRegister(db: Db, email: string, code: Maybe<string>, p: RegisterPayload,
                                    roles: set<string>, c: string, t: int)
    requires Activate(db, email, code).result.Success?
    requires Present(p.role) && p.role.value in roles && Present(p.password) && p.password == p.confirmPassword
    requires p.email == Defined(email) && email != ""
    ensures Register(Activate(db, email, code).db, p, roles, c, t).result == Failure(ApiError(400, MsgEmailExists))
  {
  }

  // ---------------------------------------------------------------- sweeps

  /** Sweeping activation codes twice at the same time is sweeping once. */
  lemma SweepActivationCodesIdempotent(creds: map<string, Credential>, now: int)
    ensures SweepActivationCodes(SweepActivationCodes(creds, now), now) == SweepActivationCodes(creds, now)
  {
    var once := SweepActivationCodes(creds, now);
    forall e | e in once
      ensures SweepActivationCodes(once, now)[e] == once[e]
    {
      assert !ActivationCodeStale(once[e], now);
    }
  }

  /** Sweeping the code-verify flags twice at the same time is sweeping once. */
  lemma SweepCodeVerifyIdempotent(creds: map<string, Credential>, now: int)
    ensures SweepCodeVerify(SweepCodeVerify(creds, now), now) == SweepCodeVerify(creds, now)
  {
    var once := SweepCodeVerify(creds, now);
    forall e | e in once
      ensures SweepCodeVerify(once, now)[e] == once[e]
    {
      if CodeVerifyStale(once[e], now) {
        assert CodeVerifyStale(creds[e], now);
      }
    }
  }

  /** A later tick subsumes an earlier one: the ticks in between change nothing that the last would not. */
  lemma SweepActivationCodesLaterSubsumes(creds: map<string, Credential>, t1: int, t2: int)
    requires t1 <= t2
    ensures SweepActivationCodes(SweepActivationCodes(creds, t1), t2) == SweepActivationCodes(creds, t2)
  {
    var first := SweepActivationCodes(creds, t1);
    forall e | e in creds
      ensures SweepActivationCodes(first, t2)[e] == SweepActivationCodes(creds, t2)[e]
    {
      if ActivationCodeStale(creds[e], t1) {
        assert ActivationCodeStale(creds[e], t2);
        assert !ActivationCodeStale(first[e], t2);
      }
    }
  }

  // ------------------------------------------------- sequences of requests

  /** The service's fixed parts: `ENUM_USER_ROLE` and bcrypt. */
  datatype Config = Config(roles: set<string>, hash: string -> string, matches: (string, string) -> bool)

  /** One request to the service, or one tick of a sweeper. */
  datatype Request =
    | RegisterReq(payload: RegisterPayload, code: string, now: int)
    | ActivateReq(email: string, submitted: Maybe<string>)
    | LoginReq(email: string, password: string)
    | ForgotReq(email: string, code: string, now: int, mailSent: bool)
    | VerifyReq(email: string, submitted: Maybe<string>, now: int)
    | ResetReq(email: string, newPassword: string, confirmPassword: string)
    | ChangeReq(authId: nat, oldPassword: string, newPassword: string, confirmPassword: string)
    | ResendActivationReq(email: string, code: string, now: int)
    | ResendForgotReq(maybeEmail: Maybe<string>, code: string, now: int)
    | ActivationSweep(now: int)
    | CodeVerifySweep(now: int)

  /** The store after one request, whatever it answered. */
  ghost function Apply(cfg: Config, db: Db, r: Request): Db
  {
    match r
    case RegisterReq(p, code, now) => Register(db, p, cfg.roles, code, now).db
    case ActivateReq(email, submitted) => Activate(db, email, submitted).db
    case LoginReq(_, _) => db
    case ForgotReq(email, code, now, mailSent) => Forgot(db, email, code, now, mailSent).db
    case VerifyReq(email, submitted, now) => VerifyResetCode(db, email, submitted, now).db
    case ResetReq(email, newPassword, confirmPassword) => Reset(db, email, newPassword, confirmPassword, cfg.hash).db
    case ChangeReq(authId, oldPassword, newPassword, confirmPassword) =>
      Change(db, authId, oldPassword, newPassword, confirmPassword, cfg.matches).db
    case ResendActivationReq(email, code, now) => ResendActivation(db, email, code, now).db
    case ResendForgotReq(email, code, now) => ResendForgot(db, email, code, now).db
    case ActivationSweep(now) => db.(creds := SweepActivationCodes(db.creds, now))
    case CodeVerifySweep(now) => db.(creds := SweepCodeVerify(db.creds, now))
  }

  /** The store after a sequence of requests, served one at a time. */
  ghost function Run(cfg: Config, db: Db, rs: seq<Request>): Db
    decreases |rs|
  {
    if rs == [] then db else Apply(cfg, Run(cfg, db, rs[..|rs| - 1]), rs[|rs| - 1])
  }

  /** The account of `email` holds a verified reset code. */
  predicate Verified(db: Db, email: string)
  {
    email in db.creds && db.creds[email].codeVerify == Defined(true)
  }

  /** Request `i` is a successful verification of a reset code for `email`. */
  ghost predicate VerifiesAt(cfg: Config, db0: Db, rs: seq<Request>, i: nat, email: string)
    requires i < |rs|
  {
    && rs[i].VerifyReq? && rs[i].email == email
    && VerifyResetCode(Run(cfg, db0, rs[..i]), email, rs[i].submitted, rs[i].now).result.Success?
  }

  /** Request `i` is a successful password reset for `email`. */
  ghost predicate ResetsAt(cfg: Config, db0: Db, rs: seq<Request>, i: nat, email: string)
    requires i < |rs|
  {
    && rs[i].ResetReq? && rs[i].email == email
    && Reset(Run(cfg, db0, rs[..i]), email, rs[i].newPassword, rs[i].confirmPassword, cfg.hash).result.Success?
  }

  /** The account stayed verified after each of the requests from `k` on. */
  ghost predicate VerifiedFrom(cfg: Config, db0: Db, rs: seq<Request>, k: nat, email: string)
  {
    forall j :: k <= j <= |rs| ==> Verified(Run(cfg, db0, rs[..j]), email)
  }

  /** No request other than a successful verification for `email` can make its account verified. */
  lemma OnlyVerificationVerifies(cfg: Config, db: Db, r: Request, email: string)
    ensures Verified(Apply(cfg, db, r), email) ==>
              || Verified(db, email)
              || (r.VerifyReq? && r.email == email && VerifyResetCode(db, email, r.submitted, r.now).result.Success?)
  {
    if r.RegisterReq? {
      var out := Register(db, r.payload, cfg.roles, r.code, r.now);
    }
  }

  /** Serving one more request leaves the store after each earlier prefix as it was. */
  lemma PrefixesAgree(rs: seq<Request>, n: nat)
    requires n <= |rs|
    ensures forall j :: 0 <= j <= n ==> rs[..n][..j] == rs[..j]
  {
  }

  /** Staying verified through a prefix, and after the whole sequence, is staying verified throughout. */
  lemma VerifiedFromExtends(cfg: Config, db0: Db, rs: seq<Request>, k: nat, email: string)
    requires |rs| > 0 && VerifiedFrom(cfg, db0, rs[..|rs| - 1], k, email)
    requires Verified(Run(cfg, db0, rs), email)
    ensures VerifiedFrom(cfg, db0, rs, k, email)
  {
    var pre := rs[..|rs| - 1];
    forall j | k <= j <= |rs|
      ensures Verified(Run(cfg, db0, rs[..j]), email)
    {
      if j == |rs| {
        assert rs[..j] == rs;
      } else {
        assert pre[..j] == rs[..j];
      }
    }
  }

  /**
   * Whenever an account is verified, either it was verified from the start
   * and stayed so, or some earlier request verified its code and the account
   * has stayed verified after every request since.
   */
  lemma {:induction false} VerifiedHasOrigin(cfg: Config, db0: Db, rs: seq<Request>, email: string)
    requires Verified(Run(cfg, db0, rs), email)
    ensures || (Verified(db0, email) && VerifiedFrom(cfg, db0, rs, 0, email))
            || exists i :: 0 <= i < |rs| && VerifiesAt(cfg, db0, rs, i, email) && VerifiedFrom(cfg, db0, rs, i + 1, email)
    decreases |rs|
  {
    if rs == [] {
      assert rs[..0] == rs;
      return;
    }
    var n := |rs| - 1;
    var pre := rs[..n];
    assert Run(cfg, db0, rs) == Apply(cfg, Run(cfg, db0, pre), rs[n]);
    OnlyVerificationVerifies(cfg, Run(cfg, db0, pre), rs[n], email);
    if VerifiesAt(cfg, db0, rs, n, email) {
      assert rs[..n + 1] == rs;
      assert VerifiedFrom(cfg, db0, rs, n + 1, email);
      return;
    }
    VerifiedHasOrigin(cfg, db0, pre, email);
    if Verified(db0, email) && VerifiedFrom(cfg, db0, pre, 0, email) {
      VerifiedFromExtends(cfg, db0, rs, 0, email);
    } else {
      var i :| 0 <= i < |pre| && VerifiesAt(cfg, db0, pre, i, email) && VerifiedFrom(cfg, db0, pre, i + 1, email);
      PrefixesAgree(rs, n);
      assert VerifiesAt(cfg, db0, rs, i, email);
      VerifiedFromExtends(cfg, db0, rs, i + 1, email);
    }
  }

  /** A successful reset clears the verification, so the account is not verified right after it. */
  lemma ResetClearsVerification(cfg: Config, db0: Db, rs: seq<Request>, j: nat, email: string)
    requires j < |rs|
    ensures ResetsAt(cfg, db0, rs, j, email) ==> !Verified(Run(cfg, db0, rs[..j + 1]), email)
  {
    assert rs[..j + 1][..j] == rs[..j];
    assert Run(cfg, db0, rs[..j + 1]) == Apply(cfg, Run(cfg, db0, rs[..j]), rs[j]);
  }

  /** While an account stays verified through part of a sequence, no reset of it succeeds there. */
  lemma NoResetWhileVerified(cfg: Config, db0: Db, rs: seq<Request>, k: nat, m: nat, email: string)
    requires k <= m <= |rs| && VerifiedFrom(cfg, db0, rs[..m], k, email)
    ensures forall j :: k <= j < m ==> !ResetsAt(cfg, db0, rs, j, email)
  {
    PrefixesAgree(rs, m);
    forall j | k <= j < m
      ensures !ResetsAt(cfg, db0, rs, j, email)
    {
      ResetClearsVerification(cfg, db0, rs, j, email);
      assert Verified(Run(cfg, db0, rs[..m][..j + 1]), email);
    }
  }

  /**
   * A reset requires prior verification, one verification per reset: every
   * successful reset is preceded by a successful verification of its own (or
   * by an account verified from the start), with no other successful reset
   * of that account in between.
   */
  lemma {:induction false} EachResetHasItsOwnVerification(cfg: Config, db0: Db, rs: seq<Request>, k: nat, email: string)
    requires k < |rs| && ResetsAt(cfg, db0, rs, k, email)
    ensures || (Verified(db0, email) && forall j :: 0 <= j < k ==> !ResetsAt(cfg, db0, rs, j, email))
            || exists i :: 0 <= i < k && VerifiesAt(cfg, db0, rs, i, email)
                           && forall j :: i < j < k ==> !ResetsAt(cfg, db0, rs, j, email)
  {
    var pre := rs[..k];
    assert Verified(Run(cfg, db0, pre), email);
    VerifiedHasOrigin(cfg, db0, pre, email);
    if Verified(db0, email) && VerifiedFrom(cfg, db0, pre, 0, email) {
      NoResetWhileVerified(cfg, db0, rs, 0, k, email);
    } else {
      var i :| 0 <= i < |pre| && VerifiesAt(cfg, db0, pre, i, email) && VerifiedFrom(cfg, db0, pre, i + 1, email);
      PrefixesAgree(rs, k);
      assert VerifiesAt(cfg, db0, rs, i, email);
      NoResetWhileVerified(cfg, db0, rs, i + 1, k, email);
    }
  }
}
