/** The authentication endpoints that send mail: registration, password
    recovery and unlock requests. Whether the mail transport delivers is an
    input; when it fails, each endpoint undoes what the service has just
    stored and answers with the SMTP error. The class controller is wired
    to the class mail service and the older handlers to the older mail
    module; both call the class authentication and user services. */
module AuthController {
  import opened Common
  import opened Errors
  import opened Users
  import opened UserRepository
  import opened AuthService
  import Roles
  import Mapper
  import UserService
  import Email
  import opened Text

  /** What the mail transport did: delivered, or failed with the SMTP
      server's response text when the error carried one. */
  datatype Delivery = Sent | Failed(response: Option<string>)

  /** The configured front-end pages the mailed links point to. */
  datatype Frontend = Frontend(verificationUrl: string, passwordRecoveryUrl: string, unlockAccountUrl: string)

  /** The three templates of one mail implementation. */
  datatype Templates = Templates(verification: seq<Email.Piece>, passwordReset: seq<Email.Piece>, accountUnlock: seq<Email.Piece>)

  /** Everything the endpoints need from outside: which controller (and so
      which mail implementation), its templates, the current year as text,
      and the front-end pages. */
  datatype Setup = Setup(edition: Email.Edition, templates: Templates, year: string, frontend: Frontend)

  /** The link mailed for a token: the page, then `token=`, then the token. */
  function Link(page: string, token: string): (url: string)
    ensures StartsWith(url, page) && EndsWith(url, "token=" + token)
  {
    var url := page + "token=" + token;
    assert url[..|page|] == page;
    assert url[|url| - |"token=" + token|..] == "token=" + token;
    url
  }

  /** A missing token interpolates as the text `undefined`. */
  function TokenText(token: Option<string>): string {
    token.GetOr("undefined")
  }

  /** The SMTP response when it is a non-empty text, otherwise a fixed one. */
  function SmtpMessage(response: Option<string>): (m: string)
    ensures m != ""
    ensures response.Some? && response.value != "" ==> m == response.value
    ensures response.None? || response.value == "" ==> m == "Unknown SMTP error"
  {
    if response.Some? && response.value != "" then response.value else "Unknown SMTP error"
  }

  /** The exception an endpoint throws when its mail could not be sent. */
  function MailFailure(response: Option<string>): Thrown {
    ServerError("EmailServiceException", SmtpMessage(response))
  }

  /** The message handed to the transport for one kind of mail. */
  function Mail(setup: Setup, kind: Email.Kind, to: string, url: string): (m: Email.Message)
    ensures m.to == to && m.subject == Email.Subject(setup.edition, kind)
  {
    var template := match kind
      case Verification => setup.templates.verification
      case PasswordReset => setup.templates.passwordReset
      case AccountUnlock => setup.templates.accountUnlock;
    Email.Compose(setup.edition, kind, template, to, url, setup.year)
  }

  /** The user in a registration answer: the class controller blanks the
      verification token, so it does not appear in the JSON at all; the
      older handler returns the saved user as the service gave it. */
  datatype RegisterBody = Public(view: Mapper.BaseUserView) | WithToken(saved: Mapper.BaseUserWithVerification)

  /** A successful answer. */
  datatype Reply = Created(body: RegisterBody) | Notice(message: string)

  function Status(r: Reply): int {
    match r
    case Created(_) => 201
    case Notice(_) => 200
  }

  const RecoveryNotice := "If an account with this email exists, a password recovery link has been sent."

  const UnlockNotice := "If an account with this email exists, an activation user recovery link has been sent."

  /** What an endpoint did: its answer or exception, the users afterwards,
      and the message it handed to the transport, if any. */
  datatype Handled = Handled(result: Result<Reply>, users: seq<User>, mail: Option<Email.Message>)

  function BodyOf(edition: Email.Edition, saved: Mapper.BaseUserWithVerification): (b: RegisterBody)
    ensures edition == Email.Current ==> b.Public? && b.view.id == saved.id && b.view.email == saved.email
    ensures edition == Email.Legacy ==> b == WithToken(saved)
  {
    match edition
    case Current => Public(Mapper.BaseUserView(saved.id, saved.email, saved.enabled, saved.verified))
    case Legacy => WithToken(saved)
  }

  /** Deleting by id the user just appended, whose id no earlier user has,
      gives back the collection as it was. */
  lemma {:induction false} DeleteAppended(users: seq<User>, u: User)
    requires forall i :: 0 <= i < |users| ==> users[i].id != u.id
    ensures UserService.DeleteUser(users + [u], u.id) == AuthService.Step(Ok(()), users)
  {
    var all := users + [u];
    assert forall j :: 0 <= j < |users| ==> all[j] == users[j];
    FirstIndexAt(all, (x: User) => x.id == u.id, |users|);
    assert RemoveAt(all, |users|) == users;
  }

  /** `register`: registers the user, mails the verification link, and on
      a mail failure deletes the new user by id and throws the SMTP error. */
  function Register(setup: Setup, users: seq<User>, roles: seq<Roles.Role>, dto: Registration, hash: string -> string,
                    id: Id, token: string, now: int, delivery: Delivery): (r: Handled)
    ensures var reg := RegisterUser(users, roles, dto, hash, id, token, now);
      (r.mail.None? <==> reg.result.Err?)
      && (reg.result.Err? ==> r == Handled(Err(reg.result.error), users, None))
    ensures r.result.Ok? <==> RegisterUser(users, roles, dto, hash, id, token, now).result.Ok? && delivery.Sent?
    ensures r.mail.Some? ==>
      r.mail.value == Mail(setup, Email.Verification, dto.email, Link(setup.frontend.verificationUrl, token))
    ensures r.result.Ok? ==>
      r.users == RegisterUser(users, roles, dto, hash, id, token, now).users
      && Status(r.result.value) == 201
      && r.result.value == Created(BodyOf(setup.edition, Mapper.BaseUserWithVerification(id, dto.email, false, false, token)))
    ensures r.mail.Some? && delivery.Failed? ==>
      var del := UserService.DeleteUser(RegisterUser(users, roles, dto, hash, id, token, now).users, id);
      r.users == del.users
      && r.result == (if del.result.Ok? then Err(MailFailure(delivery.response)) else Err(del.result.error))
  {
    var reg := RegisterUser(users, roles, dto, hash, id, token, now);
    match reg.result
    case Err(e) => Handled(Err(e), reg.users, None)
    case Ok(saved) =>
      var mail := Mail(setup, Email.Verification, saved.email, Link(setup.frontend.verificationUrl, saved.verificationToken));
      match delivery
      case Sent => Handled(Ok(Created(BodyOf(setup.edition, saved))), reg.users, Some(mail))
      case Failed(response) =>
        var del := UserService.DeleteUser(reg.users, saved.id);
        var result := match del.result
          case Ok(_) => Err(MailFailure(response))
          case Err(e) => Err(e);
        Handled(result, del.users, Some(mail))
  }

  /** `recoverPassword`: issues a reset token and mails its link; on a mail
      failure clears the reset token again and throws the SMTP error. */
  function RecoverPasswordHandler(setup: Setup, users: seq<User>, email: string, token: string, now: int,
                                  delivery: Delivery): (r: Handled)
    ensures r.result.Ok? ==> r.result.value == Notice(RecoveryNotice) && Status(r.result.value) == 200
    ensures r.result.Err? <==> FindByEmail(users, email).Some? && delivery.Failed?
    ensures r.result.Err? ==> r.result.error == MailFailure(delivery.response)
    ensures FindByEmail(users, email).None? ==> r.users == users && r.mail.None?
    ensures FindByEmail(users, email).Some? ==>
      r.mail == Some(Mail(setup, Email.PasswordReset, email, Link(setup.frontend.passwordRecoveryUrl, token)))
    ensures r.result.Ok? ==> r.users == RecoverPassword(users, email, token, now).users
    ensures r.result.Err? ==> r.users == RollbackRecoverPassword(RecoverPassword(users, email, token, now).users, email)
  {
    var rec := RecoverPassword(users, email, token, now);
    match rec.result.value
    case None => Handled(Ok(Notice(RecoveryNotice)), rec.users, None)
    case Some(u) =>
      var mail := Mail(setup, Email.PasswordReset, u.email, Link(setup.frontend.passwordRecoveryUrl, TokenText(u.passwordReset.token)));
      match delivery
      case Sent => Handled(Ok(Notice(RecoveryNotice)), rec.users, Some(mail))
      case Failed(response) => Handled(Err(MailFailure(response)), RollbackRecoverPassword(rec.users, u.email), Some(mail))
  }

  /** `requestUnlock`: issues an unlock token to a disabled account and
      mails its link; on a mail failure clears the unlock token again and
      throws the SMTP error. */
  function RequestUnlockHandler(setup: Setup, users: seq<User>, email: string, token: string, now: int,
                                delivery: Delivery): (r: Handled)
    ensures r.result.Ok? ==> r.result.value == Notice(UnlockNotice) && Status(r.result.value) == 200
    ensures var sends := FindByEmail(users, email).Some? && !FindByEmail(users, email).value.enabled;
      (r.result.Err? <==> sends && delivery.Failed?)
      && (!sends ==> r.users == users && r.mail.None?)
      && (sends ==> r.mail == Some(Mail(setup, Email.AccountUnlock, email, Link(setup.frontend.unlockAccountUrl, token))))
    ensures r.result.Err? ==> r.result.error == MailFailure(delivery.response)
    ensures r.result.Ok? ==> r.users == RequestUnlock(users, email, token, now).users
    ensures r.result.Err? ==> r.users == RollbackEnableUserToken(RequestUnlock(users, email, token, now).users, email)
  {
    var req := RequestUnlock(users, email, token, now);
    match req.result.value
    case None => Handled(Ok(Notice(UnlockNotice)), req.users, None)
    case Some(u) =>
      var mail := Mail(setup, Email.AccountUnlock, u.email, Link(setup.frontend.unlockAccountUrl, TokenText(u.enableUser.token)));
      match delivery
      case Sent => Handled(Ok(Notice(UnlockNotice)), req.users, Some(mail))
      case Failed(response) => Handled(Err(MailFailure(response)), RollbackEnableUserToken(req.users, u.email), Some(mail))
  }

  /** A registration whose mail fails leaves no user behind, and the client
      gets a 500 whose message is the SMTP response. */
  lemma {:induction false} RegisterCompensated(setup: Setup, users: seq<User>, roles: seq<Roles.Role>, dto: Registration,
                            hash: string -> string, id: Id, token: string, now: int, response: Option<string>)
    requires RegisterUser(users, roles, dto, hash, id, token, now).result.Ok?
    ensures var r := Register(setup, users, roles, dto, hash, id, token, now, Failed(response));
      r.users == users && r.result.Err?
      && HandleError(r.result.error) == Response(500, CodeMessage("EmailServiceException", SmtpMessage(response)))
  {
    RegistrationUndone(users, roles, dto, hash, id, token, now);
    MailFailureAnswer(response);
  }

  /** Deleting the user a successful registration just stored gives back
      the users as they were. */
  lemma {:induction false} RegistrationUndone(users: seq<User>, roles: seq<Roles.Role>, dto: Registration,
                                              hash: string -> string, id: Id, token: string, now: int)
    requires RegisterUser(users, roles, dto, hash, id, token, now).result.Ok?
    ensures UserService.DeleteUser(RegisterUser(users, roles, dto, hash, id, token, now).users, id)
            == AuthService.Step(Ok(()), users)
  {
    var u := RegisteredAppended(users, roles, dto, hash, id, token, now);
    DeleteAppended(users, u);
  }

  /** A mail failure is answered with a 500 named after the mail service,
      whose message is the SMTP response. */
  lemma {:induction false} MailFailureAnswer(response: Option<string>)
    ensures HandleError(MailFailure(response)) == Response(500, CodeMessage("EmailServiceException", SmtpMessage(response)))
  {
    assert "EmailServiceException" + DefaultName(Server) == "EmailServiceException";
  }

  /** A successful registration appends one user, with the given id, that
      no earlier user shares. */
  lemma {:induction false} RegisteredAppended(users: seq<User>, roles: seq<Roles.Role>, dto: Registration,
                           hash: string -> string, id: Id, token: string, now: int) returns (u: User)
    requires RegisterUser(users, roles, dto, hash, id, token, now).result.Ok?
    ensures RegisterUser(users, roles, dto, hash, id, token, now).users == users + [u]
    ensures u.id == id && forall i :: 0 <= i < |users| ==> users[i].id != id
  {
    var missing := NotFoundError("Role", "Role with name \"CLIENT\" not found");
    assert RegisterUser(users, roles, dto, hash, id, token, now) == RegisterWith(users, roles, dto, hash, id, token, now, missing);
    u := Registered(dto, hash, id, FindRoleByName(roles, ClientRole).value.id, token, now);
  }

  /** The class controller's registration answer never carries the
      verification token; the older handler's always carries the issued one. */
  lemma {:induction false} RegisterBodies(setup: Setup, users: seq<User>, roles: seq<Roles.Role>, dto: Registration,
                       hash: string -> string, id: Id, token: string, now: int)
    requires Register(setup, users, roles, dto, hash, id, token, now, Sent).result.Ok?
    ensures var body := Register(setup, users, roles, dto, hash, id, token, now, Sent).result.value.body;
      (setup.edition == Email.Current ==> body.Public?)
      && (setup.edition == Email.Legacy ==> body.WithToken? && body.saved.verificationToken == token)
  {
  }

  /** A recovery whose mail fails restores the users exactly, provided the
      account held no reset token before; in any case the account is left
      without a reset token and no other user is touched. */
  lemma {:induction false} RecoveryCompensated(setup: Setup, users: seq<User>, email: string, token: string, now: int, response: Option<string>)
    ensures var r := RecoverPasswordHandler(setup, users, email, token, now, Failed(response));
      |r.users| == |users|
      && (forall j :: 0 <= j < |users| && users[j].email != email ==> r.users[j] == users[j])
      && (FindByEmail(users, email).Some? ==> FindByEmail(r.users, email).Some? && FindByEmail(r.users, email).value.passwordReset == NoToken)
      && (FindByEmail(users, email).Some? && FindByEmail(users, email).value.passwordReset == NoToken ==> r.users == users)
  {
    var rec := RecoverPassword(users, email, token, now);
    if FindByEmail(users, email).Some? {
      if FindByEmail(users, email).value.passwordReset == NoToken {
        RecoverThenRollback(users, email, token, now);
      }
      var s := SetPair(PasswordReset, TokenPair(Some(token), Some(now + ShortTtl)));
      FindAfterUpdate(users, email, s);
    }
  }

  /** An unlock request whose mail fails restores the users exactly,
      provided the account held no unlock token before. */
  lemma {:induction false} UnlockCompensated(setup: Setup, users: seq<User>, email: string, token: string, now: int, response: Option<string>)
    requires FindByEmail(users, email).Some? ==> FindByEmail(users, email).value.enableUser == NoToken
    ensures RequestUnlockHandler(setup, users, email, token, now, Failed(response)).users == users
  {
    RequestUnlockThenRollback(users, email, token, now);
  }

  /** The recovery and unlock answers do not reveal whether an account
      exists as long as the mail goes out: two collections, one with the
      account and one without, get the same 200 answer. */
  lemma {:induction false} SameAnswerWhenDelivered(setup: Setup, users1: seq<User>, users2: seq<User>, email: string, token: string, now: int)
    ensures RecoverPasswordHandler(setup, users1, email, token, now, Sent).result
         == RecoverPasswordHandler(setup, users2, email, token, now, Sent).result
         == Ok(Notice(RecoveryNotice))
    ensures RequestUnlockHandler(setup, users1, email, token, now, Sent).result
         == RequestUnlockHandler(setup, users2, email, token, now, Sent).result
         == Ok(Notice(UnlockNotice))
  {
  }

  /** When the transport fails, the answer does tell the accounts apart:
      an existing account gets a 500 with the SMTP error, an unknown one the
      usual 200. */
  lemma {:induction false} MailFailureRevealsAccount(setup: Setup, users: seq<User>, email: string, token: string, now: int, response: Option<string>)
    requires FindByEmail(users, email).Some?
    ensures var known := RecoverPasswordHandler(setup, users, email, token, now, Failed(response));
      var unknown := RecoverPasswordHandler(setup, [], email, token, now, Failed(response));
      known.result.Err? && HandleError(known.result.error).status == 500
      && unknown.result == Ok(Notice(RecoveryNotice))
  {
    MailFailureAnswer(response);
    assert FindByEmail([], email).None?;
  }
}
