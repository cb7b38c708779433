/**
 * The account lifecycle seen from a client of the views (accounts/views.py):
 * a registered user cannot log in until the link it was mailed activates it,
 * and then it can.
 */
module Scenarios {
  import opened Wrappers
  import opened Uid
  import opened Views

  /**
   * Register with a valid form, try to log in, follow the mailed link, log in
   * again. The backend is consulted twice. Before activation it may refuse
   * the inactive user, as Django's default backend does, or match it. After
   * activation it matches the registered user. The token generator accepts
   * the token it made for the user as registered.
   */
  method RegisterActivateLogin(app: App, form: RegisterForm, gen: TokenGenerator,
                               before: (string, string) -> Option<nat>,
                               after: (string, string) -> Option<nat>)
    returns (first: LoginResult, activation: ActivateResult, second: LoginResult)
    requires app.Valid() && RegisterFormValid(app.db.users, form)
    requires gen.check(app.db.nextUserId, RegisteredUser(form), gen.make(app.db.nextUserId, RegisteredUser(form)))
    requires before(form.email, form.password).Some? ==> before(form.email, form.password) == Some(app.db.nextUserId)
    requires after(form.email, form.password) == Some(app.db.nextUserId)
    modifies app, app.db
    ensures app.Valid()
    ensures first == InvalidCredentials || first == InactiveAccount
    ensures first == InactiveAccount <==> before(form.email, form.password).Some?
    ensures activation == Activated(old(app.db.nextUserId)) && second == LoggedIn(activation.pk)
    ensures activation.pk in app.db.users && app.db.users[activation.pk].isActive
    ensures app.session == Some(activation.pk)
  {
    var r := app.Register(true, form, gen);
    var pk := r.pk;
    var login := LoginForm(form.email, form.password, true);
    first := app.Login(true, login, before);
    var mail := app.outbox[|app.outbox| - 1];
    MailedLinkActivates(app.db.users, pk, gen);
    activation := app.Activate(mail.uid, mail.token, gen);
    second := app.Login(true, login, after);
  }

  /**
   * Delete a user, then register someone else: the newcomer never receives
   * the deleted user's primary key, so an activation link mailed to the
   * deleted user can never name the newcomer.
   */
  method DeleteThenRegister(app: App, pk: nat, form: RegisterForm, gen: TokenGenerator)
    returns (r: RegisterResult)
    requires app.Valid() && pk in app.db.users
    modifies app, app.db
    ensures app.Valid()
    ensures pk !in app.db.users
    ensures r.Registered? ==> r.pk != pk && EncodeUid(r.pk) != EncodeUid(pk)
  {
    app.db.DeleteUser(pk);
    r := app.Register(true, form, gen);
    if r.Registered? {
      EncodeUidInjective(r.pk, pk);
    }
  }
}
