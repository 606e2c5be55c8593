/** The account handlers of users/views.py: `LoginView.post`,
    `MyInfoView.get`, `UserCreateView.post` and `VerifyUserView.post`. */
module Accounts {
  import opened Wrappers
  import opened Records
  import opened Projections
  import opened Validation
  import opened Whitespace
  import opened Http
  import Otp

  const InvalidCredentials := "Invalid email or password"
  const Activated := "Activated successfully"
  const OtpIncorrect := "Otp is not correct"
  const MailSubject := "Verification Code"
  const MailPrefix := "Your verification code is: "

  /** The ids of the users with this email, in storage order. */
  function UsersWithEmail(st: Store, email: string): (ids: seq<UserId>)
    requires Valid(st)
    ensures forall id :: id in ids <==> id in st.users && st.users[id].email == email
    ensures forall i, j :: 0 <= i < j < |ids| ==> ids[i] < ids[j]
  {
    SelectBelow(st.users, (u: User) => u.email == email, st.nextUserId)
  }

  /** A query for an email no stored user has finds nothing. */
  lemma NoUserWithEmail(st: Store, email: string)
    requires Valid(st)
    requires forall id :: id in st.users ==> st.users[id].email != email
    ensures UsersWithEmail(st, email) == []
  {
    SelectBelowNone(st.users, (u: User) => u.email == email, st.nextUserId);
  }

  /** `LoginView.post`. `checkPassword` stands for `user.check_password`,
      which `UserModel` (users/models.py:20), a plain `models.Model`, does
      not define; the model does not describe hashing. The store never
      changes. */
  function Login(st: Store, body: UserFields, shape: FieldErrors, checkPassword: (User, string) -> bool): (h: Handled)
    requires Valid(st)
    ensures h.store == st
    ensures (h.outcome == Responded(Reply(400, Errors(CredentialErrors(Trim(body.email), Trim(body.password), shape)))))
              <==> ValidateLogin(body, shape).Failure?
    ensures h.outcome.Responded? && h.outcome.reply.status == 200 ==>
              && h.outcome.reply.body.Tokens?
              && var id := h.outcome.reply.body.subject;
                 && id in st.users && Trim(body.email) == Some(st.users[id].email)
                 && body.password.Some? && checkPassword(st.users[id], Strip(body.password.value))
                 && UsersWithEmail(st, st.users[id].email) == [id]
    ensures h.outcome == Raised(KeyError) <==> ValidateLogin(body, shape).Success? && body.password.None?
    ensures h.outcome == Raised(MultipleObjectsReturned) <==>
              && ValidateLogin(body, shape).Success? && body.password.Some?
              && |UsersWithEmail(st, Strip(body.email.value))| > 1
  {
    match ValidateLogin(body, shape)
    case Failure(errs) => Respond(400, Errors(errs), st)
    case Success(cred) =>
      if cred.password.None? then Handled(Raised(KeyError), st)
      else
        var matches := UsersWithEmail(st, cred.email);
        if |matches| == 0 then Respond(401, Error(InvalidCredentials), st)
        else if |matches| > 1 then Handled(Raised(MultipleObjectsReturned), st)
        else
          var user := st.users[matches[0]];
          if !checkPassword(user, cred.password.value) then Respond(401, Error(InvalidCredentials), st)
          else Respond(200, Tokens(user.id), st)
  }

  /** Tokens are issued only when the input is valid, a password was sent,
      exactly one user has the email and the password checks out. */
  lemma LoginSucceedsIff(st: Store, body: UserFields, shape: FieldErrors, checkPassword: (User, string) -> bool)
    requires Valid(st)
    ensures Login(st, body, shape, checkPassword).outcome.Responded? &&
            Login(st, body, shape, checkPassword).outcome.reply.status == 200
            <==>
            && ValidateLogin(body, shape).Success?
            && body.password.Some?
            && |UsersWithEmail(st, Strip(body.email.value))| == 1
            && checkPassword(st.users[UsersWithEmail(st, Strip(body.email.value))[0]], Strip(body.password.value))
  {
  }

  /** Valid input whose email no stored user has gets the 401. */
  lemma UnknownEmailRejected(st: Store, body: UserFields, shape: FieldErrors, checkPassword: (User, string) -> bool)
    requires Valid(st)
    requires ValidateLogin(body, shape).Success? && body.password.Some?
    requires forall id :: id in st.users ==> Some(st.users[id].email) != Trim(body.email)
    ensures Login(st, body, shape, checkPassword).outcome == Responded(Reply(401, Error(InvalidCredentials)))
  {
    NoUserWithEmail(st, Strip(body.email.value));
  }

  /** Valid input naming the one user with that email, with a password
      their check refuses, gets the 401. */
  lemma WrongPasswordRejected(st: Store, body: UserFields, shape: FieldErrors, checkPassword: (User, string) -> bool)
    requires Valid(st)
    requires ValidateLogin(body, shape).Success? && body.password.Some?
    requires |UsersWithEmail(st, Strip(body.email.value))| == 1
    requires !checkPassword(st.users[UsersWithEmail(st, Strip(body.email.value))[0]], Strip(body.password.value))
    ensures Login(st, body, shape, checkPassword).outcome == Responded(Reply(401, Error(InvalidCredentials)))
  {
  }

  /** An unknown email and a wrong password get the same 401 reply. */
  lemma LoginFailuresIndistinguishable(st: Store, unknown: UserFields, wrong: UserFields,
                                       shape: FieldErrors, checkPassword: (User, string) -> bool)
    requires Valid(st)
    requires ValidateLogin(unknown, shape).Success? && unknown.password.Some?
    requires forall id :: id in st.users ==> Some(st.users[id].email) != Trim(unknown.email)
    requires ValidateLogin(wrong, shape).Success? && wrong.password.Some?
    requires |UsersWithEmail(st, Strip(wrong.email.value))| == 1
    requires !checkPassword(st.users[UsersWithEmail(st, Strip(wrong.email.value))[0]], Strip(wrong.password.value))
    ensures Login(st, unknown, shape, checkPassword).outcome == Login(st, wrong, shape, checkPassword).outcome
  {
    UnknownEmailRejected(st, unknown, shape, checkPassword);
    WrongPasswordRejected(st, wrong, shape, checkPassword);
  }

  /** The password policy applies to login input: a short password is a
      400 carrying the length message, and nobody is looked up. */
  lemma LoginShortPasswordRejected(st: Store, body: UserFields, shape: FieldErrors, checkPassword: (User, string) -> bool)
    requires Valid(st)
    requires body.password.Some? && 0 < |Strip(body.password.value)| < 8
    ensures Login(st, body, shape, checkPassword).outcome.reply.status == 400
    ensures var errs := Login(st, body, shape, checkPassword).outcome.reply.body.errors;
            "password" in errs && "Password should be at least 8 character" in errs["password"]
  {
  }

  /** `MyInfoView.get`: the principal's row through `MyInfoSerializer`, or
      404 when it is gone. */
  function MyInfo(st: Store, principal: UserId): (h: Handled)
    ensures h.store == st
    ensures principal in st.users ==> h.outcome == Responded(Reply(200, Info(MyInfoOf(st.users[principal]))))
    ensures principal !in st.users ==> h.outcome == Responded(Reply(404, Error(UserNotFound)))
  {
    if principal in st.users then Respond(200, Info(MyInfoOf(st.users[principal])), st)
    else Respond(404, Error(UserNotFound), st)
  }

  /** The row `serializer.save()` inserts: validated columns, model defaults
      for the rest (`otp` is the process-wide default, `is_active` false). */
  function NewUser(st: Store, reg: Registration): (u: User)
    ensures u.id == st.nextUserId
    ensures u.otp == st.otpDefault && !u.isActive && u.image == ""
    ensures u.email == reg.email
    ensures reg.password.Some? ==> u.password == reg.password.value
    ensures reg.password.None? ==> u.password == ""
    ensures u.name == reg.name.GetOr("") && u.surname == reg.surname.GetOr("") && u.age == reg.age.GetOr(0)
  {
    User(st.nextUserId, reg.name.GetOr(""), reg.surname.GetOr(""), reg.age.GetOr(0),
         reg.email, reg.password.GetOr(""), "", st.otpDefault, false)
  }

  function VerificationMail(u: User): Mail {
    Mail(u.email, MailSubject, MailPrefix + u.otp)
  }

  /** `UserCreateView.post`. */
  function Register(st: Store, body: UserFields, shape: FieldErrors): (h: Handled)
    requires Valid(st)
    ensures Valid(h.store)
    ensures ValidateRegistration(body, shape).Failure? ==>
              h == Respond(400, ErrorDetails(SerializerMistake, ValidateRegistration(body, shape).error), st)
    ensures ValidateRegistration(body, shape).Success? ==>
              var id := st.nextUserId;
              && id !in st.users
              && h.store.users.Keys == st.users.Keys + {id}
              && (forall other :: other in st.users ==> h.store.users[other] == st.users[other])
              && h.store.todos == st.todos
              && h.outcome == Responded(Reply(200, Tokens(id)))
              && var u := h.store.users[id];
                 && u.email == Strip(body.email.value)
                 && u.password == Trim(body.password).GetOr("")
                 && u.name == Trim(body.name).GetOr("") && u.surname == Trim(body.surname).GetOr("")
                 && u.age == body.age.GetOr(0)
                 && u.otp == st.otpDefault && !u.isActive
                 && h.store.outbox == st.outbox + [Mail(u.email, MailSubject, MailPrefix + u.otp)]
  {
    match ValidateRegistration(body, shape)
    case Failure(errs) => Respond(400, ErrorDetails(SerializerMistake, errs), st)
    case Success(reg) =>
      var u := NewUser(st, reg);
      var st' := st.(users := st.users[u.id := u],
                     nextUserId := st.nextUserId + 1,
                     outbox := st.outbox + [VerificationMail(u)]);
      Respond(200, Tokens(u.id), st')
  }

  /** `otp`, `is_active`, `id` and `image` are not writable through
      registration: bodies that agree on the five writable columns register
      the same way. */
  lemma RegisterIgnoresUnwritable(st: Store, b1: UserFields, b2: UserFields, shape: FieldErrors)
    requires Valid(st)
    requires Trim(b1.name) == Trim(b2.name) && Trim(b1.surname) == Trim(b2.surname) && b1.age == b2.age
    requires Trim(b1.email) == Trim(b2.email) && Trim(b1.password) == Trim(b2.password)
    ensures Register(st, b1, shape) == Register(st, b2, shape)
  {
  }

  /** `VerifyUserView.post`: a matching code activates the user and clears
      the code; any other submission deletes the user, todos included, and
      still answers 200. */
  function Verify(st: Store, principal: UserId, submitted: Option<Otp.Scalar>): (h: Handled)
    ensures Valid(st) ==> Valid(h.store)
    ensures principal !in st.users ==> h == Respond(404, Error(UserNotFound), st)
    ensures principal in st.users && st.users[principal].otp == Otp.PyStr(submitted) ==>
              && h.outcome == Responded(Reply(200, Message(Activated)))
              && h.store == st.(users := st.users[principal := st.users[principal].(isActive := true, otp := "")])
    ensures principal in st.users && st.users[principal].otp != Otp.PyStr(submitted) ==>
              && h.outcome == Responded(Reply(200, Error(OtpIncorrect)))
              && h.store == DeleteUser(st, principal)
  {
    if principal !in st.users then Respond(404, Error(UserNotFound), st)
    else
      var user := st.users[principal];
      if user.otp == Otp.PyStr(submitted) then
        Respond(200, Message(Activated), st.(users := st.users[principal := user.(isActive := true, otp := "")]))
      else
        Respond(200, Error(OtpIncorrect), DeleteUser(st, principal))
  }

  /** The OTP default is drawn once: two users registered one after the
      other receive the same code. */
  lemma SuccessiveRegistrationsShareCode(st: Store, b1: UserFields, s1: FieldErrors, b2: UserFields, s2: FieldErrors)
    requires Valid(st)
    requires ValidateRegistration(b1, s1).Success? && ValidateRegistration(b2, s2).Success?
    ensures var h1 := Register(st, b1, s1);
            var h2 := Register(h1.store, b2, s2);
            var first := st.nextUserId;
            var second := h1.store.nextUserId;
            && first != second
            && first in h2.store.users && second in h2.store.users
            && h2.store.users[first].otp == h2.store.users[second].otp == st.otpDefault
  {
  }

  /** A newly registered user holds the process-wide code, so sending that
      code back, as text or as the number, activates the account. */
  lemma FreshCodeActivates(st: Store, draw: int, principal: UserId, submitted: Option<Otp.Scalar>)
    requires Otp.Low <= draw <= Otp.High
    requires st.otpDefault == Otp.CreateOtp(draw)
    requires principal in st.users && st.users[principal].otp == st.otpDefault
    requires submitted == Some(Otp.Str(Otp.CreateOtp(draw))) || submitted == Some(Otp.Int(draw))
    ensures Verify(st, principal, submitted).outcome == Responded(Reply(200, Message(Activated)))
    ensures var u := Verify(st, principal, submitted).store.users[principal];
            u.isActive && u.otp == "" && u == st.users[principal].(isActive := true, otp := "")
  {
  }

  /** A pending user keeps the code of the process that registered them.
      After a restart draws a different default, their own code still
      activates them, while the new default, which a user registered now
      would receive, deletes them. */
  lemma {:induction false} CodeSurvivesRestart(st: Store, body: UserFields, shape: FieldErrors, earlier: int, later: int)
    requires Valid(st)
    requires ValidateRegistration(body, shape).Success?
    requires Otp.Low <= earlier <= Otp.High && Otp.Low <= later <= Otp.High && earlier != later
    requires st.otpDefault == Otp.CreateOtp(earlier)
    ensures var id := st.nextUserId;
            var restarted := Restart(Register(st, body, shape).store, later);
            && Verify(restarted, id, Some(Otp.Str(Otp.CreateOtp(earlier)))).outcome
                 == Responded(Reply(200, Message(Activated)))
            && Verify(restarted, id, Some(Otp.Str(restarted.otpDefault))).store == DeleteUser(restarted, id)
  {
    Otp.CreateOtpInjective(earlier, later);
  }

  /** A wrong code deletes the account and, by the cascade, every todo it
      owned; nobody else's rows change. */
  lemma WrongCodeCascades(st: Store, principal: UserId, submitted: Option<Otp.Scalar>)
    requires principal in st.users && st.users[principal].otp != Otp.PyStr(submitted)
    ensures var st' := Verify(st, principal, submitted).store;
            && principal !in st'.users
            && (forall id :: id in st'.todos ==> st'.todos[id].owner != principal)
            && (forall id :: id in st.todos && st.todos[id].owner != principal ==>
                  id in st'.todos && st'.todos[id] == st.todos[id])
            && (forall id :: id in st.users && id != principal ==> id in st'.users && st'.users[id] == st.users[id])
  {
  }

  /** After an activation the stored code is empty, so every later
      submission except the empty string, a missing `otp` key included
      (it prints as "None"), deletes the now active account. */
  lemma ResubmissionDeletesActiveAccount(st: Store, principal: UserId,
                                                           code: Option<Otp.Scalar>, again: Option<Otp.Scalar>)
    requires principal in st.users && st.users[principal].otp == Otp.PyStr(code)
    requires again != Some(Otp.Str(""))
    ensures var active := Verify(st, principal, code).store;
            && active.users[principal].isActive
            && Verify(active, principal, again).outcome == Responded(Reply(200, Error(OtpIncorrect)))
            && Verify(active, principal, again).store == DeleteUser(active, principal)
  {
  }

  /** Once a wrong code has deleted the only user with an email, logging
      in with that email fails as invalid credentials. */
  lemma DeletedUserCannotLogin(st: Store, principal: UserId, submitted: Option<Otp.Scalar>,
                               body: UserFields, shape: FieldErrors, checkPassword: (User, string) -> bool)
    requires Valid(st)
    requires principal in st.users && st.users[principal].otp != Otp.PyStr(submitted)
    requires forall id :: id in st.users && id != principal ==> st.users[id].email != st.users[principal].email
    requires Trim(body.email) == Some(st.users[principal].email) && body.password.Some?
    requires ValidateLogin(body, shape).Success?
    ensures Login(Verify(st, principal, submitted).store, body, shape, checkPassword).outcome
              == Responded(Reply(401, Error(InvalidCredentials)))
  {
    var st' := Verify(st, principal, submitted).store;
    var email := st.users[principal].email;
    assert st' == DeleteUser(st, principal);
    assert Valid(st');
    var cred := ValidateLogin(body, shape).value;
    assert cred.email == email;
    NoUserWithEmail(st', email);
  }
}
