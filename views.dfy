/**
 * The account views (accounts/views.py): registration, activation through an
 * emailed link, the login gate and re-sending the activation link. The site is
 * a class holding the database, the mail sent so far and the user logged in on
 * the current session. The activation-token generator and the authentication
 * backend are not part of this model; they are passed in as functions, and
 * each member that relies on something about them says so in its requires.
 */
module Views {
  import opened Wrappers
  import opened Uid
  import opened Models

  type Token = string

  /** account_activation_token: make_token(user) and check_token(user, token), uninterpreted. */
  datatype TokenGenerator = TokenGenerator(make: (nat, User) -> Token, check: (nat, User, Token) -> bool)

  /** An email carrying an activation link for the user with uid `uid`. */
  datatype Mail = Mail(to: string, subject: string, uid: string, token: Token)

  const ActivationSubject: string := "Ative sua conta"
  const ResendSubject: string := "Reenvio do link de ativação"

  /** The activation email for a stored user: to its address, with its encoded pk and a token made for it. */
  function ActivationMail(subject: string, pk: nat, u: User, gen: TokenGenerator): (r: Mail)
    ensures r.to == u.email && r.subject == subject && r.token == gen.make(pk, u)
    ensures DecodeUid(r.uid) == Some(pk)
  {
    UidRoundTrip(pk);
    Mail(u.email, subject, EncodeUid(pk), gen.make(pk, u))
  }

  /**
   * The registration form; `fieldsValid` is the verdict of the form's own field and
   * password validators, clean_username's case-insensitive username check included.
   */
  datatype RegisterForm = RegisterForm(username: string, email: string, password: string, fieldsValid: bool)

  /** The login form; `fieldsValid` is the verdict of its field validators. */
  datatype LoginForm = LoginForm(email: string, password: string, fieldsValid: bool)

  datatype RegisterResult = RegisterFormShown | Registered(pk: nat)
  datatype ActivateResult = Activated(pk: nat) | InvalidLink
  datatype LoginResult = LoginFormShown | InvalidCredentials | InactiveAccount | LoggedIn(pk: nat)
  datatype ResendResult = ResendFormShown | EmailNotFound | AlreadyActive | Resent(pk: nat)

  /**
   * RegisterForm.is_valid(): the field validators pass and, as the model form
   * checks for the unique fields it edits, no stored user has the email or the
   * username.
   */
  predicate RegisterFormValid(users: map<nat, User>, form: RegisterForm) {
    form.fieldsValid && EmailFree(users, form.email) && UsernameFree(users, form.username)
  }

  /** The user register_view stores: inactive until the email is confirmed. */
  function RegisteredUser(form: RegisterForm): (r: User)
    ensures !r.isActive && r.email == form.email && r.username == form.username && r.password == form.password
    ensures r.coins == 0 && r.points == 0 && r.nivel == 0 && r.exp == 0
  {
    NewUser(form.username, form.email, form.password, false)
  }

  // ---------------------------------------------------------------------------
  // Decisions
  // ---------------------------------------------------------------------------

  /** The user an activation request activates, or None for the "Link inválido" page. */
  function ActivationTarget(users: map<nat, User>, uidb64: string, token: Token, gen: TokenGenerator): (r: Option<nat>)
    ensures r.Some? <==> DecodeUid(uidb64).Some? && DecodeUid(uidb64).value in users
                         && gen.check(DecodeUid(uidb64).value, users[DecodeUid(uidb64).value], token)
    ensures r.Some? ==> DecodeUid(uidb64) == r
  {
    match DecodeUid(uidb64)
    case None => None
    case Some(pk) => if pk in users && gen.check(pk, users[pk], token) then Some(pk) else None
  }

  /** The user table after the user pk is marked active. */
  function ActivatedUsers(users: map<nat, User>, pk: nat): (r: map<nat, User>)
    requires pk in users
    ensures r.Keys == users.Keys && r[pk].isActive
  {
    users[pk := users[pk].(isActive := true)]
  }

  /** login_view's decision, given the user authenticate matched (if any). */
  function LoginDecision(users: map<nat, User>, formValid: bool, matched: Option<nat>): (r: LoginResult)
    requires matched.Some? ==> matched.value in users
    ensures r.LoginFormShown? <==> !formValid
    ensures r.InvalidCredentials? <==> formValid && matched.None?
    ensures r.InactiveAccount? <==> formValid && matched.Some? && !users[matched.value].isActive
    ensures r.LoggedIn? <==> formValid && matched.Some? && users[matched.value].isActive
    ensures r.LoggedIn? ==> matched == Some(r.pk)
  {
    if !formValid then LoginFormShown
    else match matched
      case None => InvalidCredentials
      case Some(pk) => if !users[pk].isActive then InactiveAccount else LoggedIn(pk)
  }

  /** CustomUser.objects.get(email=email): the user with that email, if any. */
  ghost function UserWithEmail(users: map<nat, User>, email: Option<string>): (r: Option<nat>)
    ensures r.Some? ==> email.Some? && r.value in users && users[r.value].email == email.value
    ensures r.None? <==> email.None? || EmailFree(users, email.value)
  {
    if email.Some? && exists pk :: pk in users && users[pk].email == email.value then
      var pk :| pk in users && users[pk].email == email.value; Some(pk)
    else None
  }

  /** resend_activation_email's decision. */
  ghost function ResendDecision(users: map<nat, User>, isPost: bool, email: Option<string>): (r: ResendResult)
    ensures r.ResendFormShown? <==> !isPost
    ensures r.EmailNotFound? <==> isPost && (email.None? || EmailFree(users, email.value))
    ensures r.AlreadyActive? <==> isPost && UserWithEmail(users, email).Some?
                                  && users[UserWithEmail(users, email).value].isActive
    ensures r.Resent? <==> isPost && UserWithEmail(users, email).Some?
                           && !users[UserWithEmail(users, email).value].isActive
    ensures r.Resent? ==> r.pk in users && Some(users[r.pk].email) == email && !users[r.pk].isActive
  {
    if !isPost then ResendFormShown
    else match UserWithEmail(users, email)
      case None => EmailNotFound
      case Some(pk) => if users[pk].isActive then AlreadyActive else Resent(pk)
  }

  // ---------------------------------------------------------------------------
  // Properties of the decisions
  // ---------------------------------------------------------------------------

  /** The link mailed to a user activates exactly that user, whenever the generator accepts its own token. */
  lemma MailedLinkActivates(users: map<nat, User>, pk: nat, gen: TokenGenerator)
    requires pk in users && gen.check(pk, users[pk], gen.make(pk, users[pk]))
    ensures ActivationTarget(users, EncodeUid(pk), gen.make(pk, users[pk]), gen) == Some(pk)
  {
    UidRoundTrip(pk);
  }

  /** A link carrying the uid of user pk activates pk or nobody, whatever its token. */
  lemma LinkBindsIdentity(users: map<nat, User>, pk: nat, token: Token, gen: TokenGenerator)
    ensures ActivationTarget(users, EncodeUid(pk), token, gen).Some? ==>
              ActivationTarget(users, EncodeUid(pk), token, gen) == Some(pk)
  {
    UidRoundTrip(pk);
  }

  /** Activation changes the activated user's flag and nothing else; it never deactivates anyone. */
  lemma ActivationChangesOnlyTarget(users: map<nat, User>, pk: nat, q: nat)
    requires pk in users && q in users
    ensures q != pk ==> ActivatedUsers(users, pk)[q] == users[q]
    ensures ActivatedUsers(users, pk)[pk] == users[pk].(isActive := true)
    ensures users[q].isActive ==> ActivatedUsers(users, pk)[q].isActive
  {
  }

  /** Activating an already active user leaves the table as it was. */
  lemma ActivationIsIdempotent(users: map<nat, User>, pk: nat)
    requires pk in users && users[pk].isActive
    ensures ActivatedUsers(users, pk) == users
  {
  }

  /** Activation keeps every table constraint on users: it touches no email and no username. */
  lemma ActivationKeepsUnique(users: map<nat, User>, pk: nat)
    requires pk in users && EmailsUnique(users) && UsernamesUnique(users)
    ensures EmailFree(users - {pk}, users[pk].email) && UsernameFree(users - {pk}, users[pk].username)
  {
  }

  /** With unique emails, the email lookup finds the one user that has it. */
  lemma UserWithEmailUnique(users: map<nat, User>, pk: nat)
    requires EmailsUnique(users) && pk in users
    ensures UserWithEmail(users, Some(users[pk].email)) == Some(pk)
  {
  }

  /** A user who has not activated the account is never logged in, whatever the credentials. */
  lemma InactiveUserNeverLogsIn(users: map<nat, User>, pk: nat, formValid: bool)
    requires pk in users && !users[pk].isActive
    ensures LoginDecision(users, formValid, Some(pk)) != LoggedIn(pk)
    ensures formValid ==> LoginDecision(users, formValid, Some(pk)) == InactiveAccount
  {
  }

  // ---------------------------------------------------------------------------
  // The site
  // ---------------------------------------------------------------------------

  class App {
    const db: Database
    var outbox: seq<Mail>
    var session: Option<nat>  // the user logged in on the current session

    ghost predicate Valid()
      reads this, db
    {
      db.Valid()
    }

    constructor (db: Database)
      requires db.Valid()
      ensures Valid() && this.db == db && outbox == [] && session == None
    {
      this.db := db;
      outbox := [];
      session := None;
    }

    /**
     * register_view (accounts/views.py:17-45): on a valid POSTed form, store
     * the user inactive (its profile comes with it) and mail it its
     * activation link; otherwise only show the form again.
     */
    method Register(isPost: bool, form: RegisterForm, gen: TokenGenerator) returns (r: RegisterResult)
      requires Valid()
      modifies this, db
      ensures Valid()
      ensures r.Registered? <==> isPost && RegisterFormValid(old(db.users), form)
      ensures r.RegisterFormShown? ==>
        db.users == old(db.users) && db.profiles == old(db.profiles) && outbox == old(outbox)
      ensures r.Registered? ==>
        r.pk == old(db.nextUserId) && r.pk !in old(db.users) && db.users == old(db.users)[r.pk := RegisteredUser(form)]
      ensures r.Registered? ==>
        var u := db.users[r.pk];
        !u.isActive && u.coins == 0 && u.points == 0 && u.nivel == 0 && u.exp == 0
        && u.email == form.email && u.username == form.username
      ensures r.Registered? ==>
        exists id: nat :: id !in old(db.profiles) && db.profiles == old(db.profiles)[id := Profile(r.pk)]
      ensures r.Registered? ==>
        outbox == old(outbox) + [ActivationMail(ActivationSubject, r.pk, RegisteredUser(form), gen)]
      ensures db.resetTokens == old(db.resetTokens) && session == old(session)
      ensures db.nextUserId == if r.Registered? then old(db.nextUserId) + 1 else old(db.nextUserId)
      ensures db.nextProfileId == if r.Registered? then old(db.nextProfileId) + 1 else old(db.nextProfileId)
      ensures db.nextTokenId == old(db.nextTokenId)
    {
      if !(isPost && RegisterFormValid(db.users, form)) {
        return RegisterFormShown;
      }
      var user := RegisteredUser(form);
      var pk := db.SaveNewUser(user);
      var id := pk.value;
      outbox := outbox + [ActivationMail(ActivationSubject, id, user, gen)];
      r := Registered(id);
    }

    /**
     * activate_view (accounts/views.py:47-60): decode the uid, load that user
     * and, when the token checks out for it, mark it active; any failure is
     * the "Link inválido" page and changes nothing.
     */
    method Activate(uidb64: string, token: Token, gen: TokenGenerator) returns (r: ActivateResult)
      requires Valid()
      modifies db
      ensures Valid()
      ensures r.Activated? <==> ActivationTarget(old(db.users), uidb64, token, gen).Some?
      ensures r.Activated? ==> ActivationTarget(old(db.users), uidb64, token, gen) == Some(r.pk)
                               && db.users == ActivatedUsers(old(db.users), r.pk)
      ensures r.InvalidLink? ==> db.users == old(db.users)
      ensures db.profiles == old(db.profiles) && db.resetTokens == old(db.resetTokens)
      ensures db.nextUserId == old(db.nextUserId) && db.nextProfileId == old(db.nextProfileId)
      ensures db.nextTokenId == old(db.nextTokenId)
    {
      var uid := DecodeUid(uidb64);
      if uid.None? || uid.value !in db.users {
        return InvalidLink;
      }
      var pk := uid.value;
      var user := db.users[pk];
      if !gen.check(pk, user, token) {
        return InvalidLink;
      }
      ActivationKeepsUnique(db.users, pk);
      var ok := db.SaveUser(pk, user.(isActive := true));
      r := Activated(pk);
    }

    /**
     * login_view (accounts/views.py:65-84): on a valid POSTed form, ask the
     * authentication backend for the user; no user, an inactive user and an
     * active user are the three outcomes, and only the last logs in.
     */
    method Login(isPost: bool, form: LoginForm, authenticate: (string, string) -> Option<nat>)
      returns (r: LoginResult)
      requires Valid()
      requires authenticate(form.email, form.password).Some? ==>
                 authenticate(form.email, form.password).value in db.users
      modifies this
      ensures Valid()
      ensures r == LoginDecision(db.users, isPost && form.fieldsValid, authenticate(form.email, form.password))
      ensures session == if r.LoggedIn? then Some(r.pk) else old(session)
      ensures outbox == old(outbox)
    {
      if !(isPost && form.fieldsValid) {
        return LoginFormShown;
      }
      var user := authenticate(form.email, form.password);
      if user.None? {
        r := InvalidCredentials;
      } else if !db.users[user.value].isActive {
        r := InactiveAccount;
      } else {
        session := Some(user.value);
        r := LoggedIn(user.value);
      }
    }

    /**
     * resend_activation_email (accounts/views.py:86-117): an unknown email is
     * an error, an active account needs nothing, and an inactive one gets a
     * fresh activation link. The database is never written.
     */
    method ResendActivation(isPost: bool, email: Option<string>, gen: TokenGenerator) returns (r: ResendResult)
      requires Valid()
      modifies this
      ensures Valid()
      ensures r == ResendDecision(db.users, isPost, email)
      ensures r.Resent? ==> outbox == old(outbox) + [ActivationMail(ResendSubject, r.pk, db.users[r.pk], gen)]
      ensures !r.Resent? ==> outbox == old(outbox)
      ensures session == old(session)
    {
      if !isPost {
        return ResendFormShown;
      }
      if email.None? || !exists pk :: pk in db.users && db.users[pk].email == email.value {
        return EmailNotFound;
      }
      var pk :| pk in db.users && db.users[pk].email == email.value;
      UserWithEmailUnique(db.users, pk);
      var user := db.users[pk];
      if user.isActive {
        return AlreadyActive;
      }
      outbox := outbox + [ActivationMail(ResendSubject, pk, user, gen)];
      r := Resent(pk);
    }
  }
}
