/**
 * The tables of the accounts app (accounts/models.py): users with unique
 * email and username and zero-initialised counters, one profile per user made
 * by the post_save hook, and the ledger of password-reset tokens, each with a
 * unique value, an owner and an expiry instant. The database is a class whose
 * tables are maps from primary key to row; keys are handed out by counters,
 * as auto-increment primary keys are, and never reused.
 */
module Models {
  import opened Wrappers

  /** A row of the user table (CustomUser, accounts/models.py:9-20). */
  datatype User = User(
    username: string,
    email: string,
    password: string,  // the stored credential, already hashed by the form
    isActive: bool,
    coins: int,
    points: int,
    nivel: int,
    exp: int)

  /** A user as the registration form builds it: every counter at its default, 0. */
  function NewUser(username: string, email: string, password: string, isActive: bool): (r: User)
    ensures r.coins == 0 && r.points == 0 && r.nivel == 0 && r.exp == 0
    ensures r.username == username && r.email == email && r.password == password && r.isActive == isActive
  {
    User(username, email, password, isActive, 0, 0, 0, 0)
  }

  /** A row of the profile table; only the one-to-one link to the user is modelled. */
  datatype Profile = Profile(user: nat)

  /** A row of the reset-token ledger (PasswordResetToken, accounts/models.py:25-29). */
  datatype ResetToken = ResetToken(user: nat, token: nat, createdAt: int, expiresAt: int)

  /** is_expired (accounts/models.py:31-32): strictly past the expiry instant. */
  predicate IsExpired(t: ResetToken, now: int) {
    now > t.expiresAt
  }

  /** A token is still good at the very instant it expires. */
  lemma NotExpiredAtExpiry(t: ResetToken)
    ensures !IsExpired(t, t.expiresAt)
    ensures forall now :: IsExpired(t, now) <==> t.expiresAt < now
  {
  }

  /** Once expired, a token stays expired. */
  lemma ExpiryIsMonotone(t: ResetToken, earlier: int, later: int)
    requires earlier <= later && IsExpired(t, earlier)
    ensures IsExpired(t, later)
  {
  }

  // ---------------------------------------------------------------------------
  // Table constraints
  // ---------------------------------------------------------------------------

  predicate EmailFree(users: map<nat, User>, email: string) {
    forall pk :: pk in users ==> users[pk].email != email
  }

  predicate UsernameFree(users: map<nat, User>, username: string) {
    forall pk :: pk in users ==> users[pk].username != username
  }

  /** email = EmailField(unique=True) (accounts/models.py:10). */
  predicate EmailsUnique(users: map<nat, User>) {
    forall p, q :: p in users && q in users && users[p].email == users[q].email ==> p == q
  }

  /** username = CharField(unique=True) (accounts/models.py:11). */
  predicate UsernamesUnique(users: map<nat, User>) {
    forall p, q :: p in users && q in users && users[p].username == users[q].username ==> p == q
  }

  /** token = UUIDField(unique=True) (accounts/models.py:27). */
  predicate TokenValuesUnique(tokens: map<nat, ResetToken>) {
    forall i, j :: i in tokens && j in tokens && tokens[i].token == tokens[j].token ==> i == j
  }

  predicate TokenValueTaken(tokens: map<nat, ResetToken>, value: nat) {
    exists id :: id in tokens && tokens[id].token == value
  }

  /** The user foreign key of every token row points at a stored user. */
  predicate TokensOwned(tokens: map<nat, ResetToken>, users: map<nat, User>) {
    forall id :: id in tokens ==> tokens[id].user in users
  }

  /** The user one-to-one key of every profile points at a stored user. */
  predicate ProfilesOwned(profiles: map<nat, Profile>, users: map<nat, User>) {
    forall id :: id in profiles ==> profiles[id].user in users
  }

  /** OneToOneField (accounts/models.py:40): no user has two profiles. */
  predicate ProfileOwnersUnique(profiles: map<nat, Profile>) {
    forall i, j :: i in profiles && j in profiles && profiles[i].user == profiles[j].user ==> i == j
  }

  predicate HasProfile(profiles: map<nat, Profile>, pk: nat) {
    exists id :: id in profiles && profiles[id].user == pk
  }

  /** Every user except possibly `except` has a profile. */
  predicate ProfilesCompleteExcept(users: map<nat, User>, profiles: map<nat, Profile>, except: Option<nat>) {
    forall pk :: pk in users && Some(pk) != except ==> HasProfile(profiles, pk)
  }

  /** Auto-increment keys: every key is positive and below the next one to hand out. */
  predicate KeysBelow<V>(m: map<nat, V>, next: nat) {
    0 < next && forall k :: k in m ==> 0 < k < next
  }

  // ---------------------------------------------------------------------------
  // Cascades
  // ---------------------------------------------------------------------------

  /** The user a ledger row belongs to. */
  function TokenOwner(t: ResetToken): nat { t.user }

  /** The user a profile belongs to. */
  function ProfileOwner(p: Profile): nat { p.user }

  /**
   * A table without the rows that refer to user pk through the foreign key
   * `owner`: what on_delete=CASCADE leaves of it (accounts/models.py:26, :40).
   */
  function RowsNotOwnedBy<R>(rows: map<nat, R>, owner: R -> nat, pk: nat): (r: map<nat, R>)
    ensures forall id :: id in r <==> id in rows && owner(rows[id]) != pk
    ensures forall id :: id in r ==> r[id] == rows[id]
  {
    map id | id in rows && owner(rows[id]) != pk :: rows[id]
  }

  // ---------------------------------------------------------------------------
  // The constraints are kept by the table operations
  // ---------------------------------------------------------------------------

  /** Storing a row whose email and username no other user has keeps both unique. */
  lemma StoreKeepsUnique(users: map<nat, User>, pk: nat, u: User)
    requires EmailsUnique(users) && UsernamesUnique(users)
    requires EmailFree(users - {pk}, u.email) && UsernameFree(users - {pk}, u.username)
    ensures EmailsUnique(users[pk := u]) && UsernamesUnique(users[pk := u])
  {
    var m := users[pk := u];
    forall p | p in m && p != pk
      ensures p in users - {pk} && m[p] == users[p]
    {
    }
  }

  /** After a cascading delete no row refers to the deleted user and every other user keeps its profile. */
  lemma DeleteKeepsReferences(users: map<nat, User>, profiles: map<nat, Profile>,
                              tokens: map<nat, ResetToken>, pk: nat)
    requires TokensOwned(tokens, users) && ProfilesOwned(profiles, users)
    requires ProfilesCompleteExcept(users, profiles, None)
    ensures TokensOwned(RowsNotOwnedBy(tokens, TokenOwner, pk), users - {pk})
    ensures ProfilesOwned(RowsNotOwnedBy(profiles, ProfileOwner, pk), users - {pk})
    ensures ProfilesCompleteExcept(users - {pk}, RowsNotOwnedBy(profiles, ProfileOwner, pk), None)
  {
    var ps := RowsNotOwnedBy(profiles, ProfileOwner, pk);
    forall q | q in users - {pk}
      ensures HasProfile(ps, q)
    {
      assert HasProfile(profiles, q);
      var id :| id in profiles && profiles[id].user == q;
      assert id in ps;
    }
  }

  // ---------------------------------------------------------------------------
  // The database
  // ---------------------------------------------------------------------------

  class Database {
    var users: map<nat, User>
    var profiles: map<nat, Profile>
    var resetTokens: map<nat, ResetToken>
    var nextUserId: nat
    var nextProfileId: nat
    var nextTokenId: nat

    /** Every constraint of the schema, except that one user may still lack its profile. */
    ghost predicate ValidExcept(pending: Option<nat>)
      reads this
    {
      && KeysBelow(users, nextUserId)
      && KeysBelow(profiles, nextProfileId)
      && KeysBelow(resetTokens, nextTokenId)
      && EmailsUnique(users)
      && UsernamesUnique(users)
      && TokenValuesUnique(resetTokens)
      && TokensOwned(resetTokens, users)
      && ProfilesOwned(profiles, users)
      && ProfileOwnersUnique(profiles)
      && ProfilesCompleteExcept(users, profiles, pending)
      && (pending.Some? ==> pending.value in users && !HasProfile(profiles, pending.value))
    }

    /** The schema's constraints, and every user has its profile. */
    ghost predicate Valid()
      reads this
    {
      ValidExcept(None)
    }

    constructor ()
      ensures Valid()
      ensures users == map[] && profiles == map[] && resetTokens == map[]
    {
      users, profiles, resetTokens := map[], map[], map[];
      nextUserId, nextProfileId, nextTokenId := 1, 1, 1;
    }

    /**
     * The post_save receiver create_user_profile (accounts/models.py:34-37):
     * a save that created the user inserts its profile; any other save inserts
     * nothing.
     */
    method CreateUserProfile(instance: nat, created: bool)
      requires instance in users
      requires created ==> ValidExcept(Some(instance))
      requires !created ==> Valid()
      modifies this
      ensures Valid()
      ensures users == old(users) && resetTokens == old(resetTokens)
      ensures created ==> old(nextProfileId) !in old(profiles)
                          && profiles == old(profiles)[old(nextProfileId) := Profile(instance)]
      ensures !created ==> profiles == old(profiles)
      ensures nextProfileId == if created then old(nextProfileId) + 1 else old(nextProfileId)
      ensures nextUserId == old(nextUserId) && nextTokenId == old(nextTokenId)
    {
      if created {
        profiles := profiles[nextProfileId := Profile(instance)];
        nextProfileId := nextProfileId + 1;
        forall pk | pk in users
          ensures HasProfile(profiles, pk)
        {
          if pk == instance {
            assert profiles[nextProfileId - 1].user == pk;
          } else {
            assert HasProfile(old(profiles), pk);
            var id :| id in old(profiles) && old(profiles)[id].user == pk;
            assert profiles[id].user == pk;
          }
        }
      }
    }

    /**
     * user.save() on a user not yet stored: an INSERT, refused (None, nothing
     * changed) when the email or the username is already taken, followed by
     * post_save with created=True.
     */
    method SaveNewUser(u: User) returns (pk: Option<nat>)
      requires Valid()
      modifies this
      ensures Valid()
      ensures pk.Some? <==> EmailFree(old(users), u.email) && UsernameFree(old(users), u.username)
      ensures pk.None? ==> users == old(users) && profiles == old(profiles)
      ensures pk.Some? ==> pk.value == old(nextUserId) && pk.value !in old(users) && users == old(users)[pk.value := u]
      ensures pk.Some? ==> old(nextProfileId) !in old(profiles)
                           && profiles == old(profiles)[old(nextProfileId) := Profile(pk.value)]
      ensures resetTokens == old(resetTokens)
      ensures nextUserId == if pk.Some? then old(nextUserId) + 1 else old(nextUserId)
      ensures nextProfileId == if pk.Some? then old(nextProfileId) + 1 else old(nextProfileId)
      ensures nextTokenId == old(nextTokenId)
    {
      if !(EmailFree(users, u.email) && UsernameFree(users, u.username)) {
        return None;
      }
      var id := nextUserId;
      assert users - {id} == users;
      StoreKeepsUnique(users, id, u);
      users := users[id := u];
      nextUserId := nextUserId + 1;
      assert !HasProfile(profiles, id);
      CreateUserProfile(id, true);
      pk := Some(id);
    }

    /**
     * user.save() on a stored user: an UPDATE of its row, refused (false,
     * nothing changed) when the new email or username belongs to another user,
     * followed by post_save with created=False.
     */
    method SaveUser(pk: nat, u: User) returns (ok: bool)
      requires Valid() && pk in users
      modifies this
      ensures Valid()
      ensures ok <==> EmailFree(old(users) - {pk}, u.email) && UsernameFree(old(users) - {pk}, u.username)
      ensures users == if ok then old(users)[pk := u] else old(users)
      ensures profiles == old(profiles) && resetTokens == old(resetTokens)
      ensures nextUserId == old(nextUserId) && nextProfileId == old(nextProfileId) && nextTokenId == old(nextTokenId)
    {
      ok := EmailFree(users - {pk}, u.email) && UsernameFree(users - {pk}, u.username);
      if ok {
        StoreKeepsUnique(users, pk, u);
        users := users[pk := u];
        assert ProfilesCompleteExcept(users, profiles, None) by {
          forall q | q in users ensures HasProfile(profiles, q) {
            assert q in old(users);
          }
        }
        CreateUserProfile(pk, false);
      }
    }

    /** Deleting a user, with the cascades of accounts/models.py:26 and :40. */
    method DeleteUser(pk: nat)
      requires Valid()
      modifies this
      ensures Valid()
      ensures users == old(users) - {pk}
      ensures profiles == RowsNotOwnedBy(old(profiles), ProfileOwner, pk)
      ensures resetTokens == RowsNotOwnedBy(old(resetTokens), TokenOwner, pk)
      ensures nextUserId == old(nextUserId) && nextProfileId == old(nextProfileId) && nextTokenId == old(nextTokenId)
    {
      DeleteKeepsReferences(users, profiles, resetTokens, pk);
      users := users - {pk};
      profiles := RowsNotOwnedBy(profiles, ProfileOwner, pk);
      resetTokens := RowsNotOwnedBy(resetTokens, TokenOwner, pk);
    }

    /**
     * PasswordResetToken.objects.create: an INSERT into the ledger, refused
     * (None, nothing changed) when the token value is already in use.
     */
    method InsertResetToken(row: ResetToken) returns (id: Option<nat>)
      requires Valid() && row.user in users
      modifies this
      ensures Valid()
      ensures id.Some? <==> !TokenValueTaken(old(resetTokens), row.token)
      ensures id.Some? ==> id.value !in old(resetTokens) && resetTokens == old(resetTokens)[id.value := row]
      ensures id.None? ==> resetTokens == old(resetTokens)
      ensures users == old(users) && profiles == old(profiles)
      ensures id.Some? ==> id.value == old(nextTokenId)
      ensures nextTokenId == if id.Some? then old(nextTokenId) + 1 else old(nextTokenId)
      ensures nextUserId == old(nextUserId) && nextProfileId == old(nextProfileId)
    {
      if TokenValueTaken(resetTokens, row.token) {
        return None;
      }
      resetTokens := resetTokens[nextTokenId := row];
      id := Some(nextTokenId);
      nextTokenId := nextTokenId + 1;
    }
  }
}
