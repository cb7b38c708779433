/** Issuing password-reset tokens (accounts/utils.py). */
module Utils {
  import opened Wrappers
  import opened Models

  /** timedelta(hours=1), in seconds. */
  const ResetTokenLifetime: int := 3600

  /**
   * create_reset_token (accounts/utils.py:5-6): one new ledger row for the
   * given user, created now and expiring one hour later. The token value is
   * the random uuid4 the ledger draws, passed in here; when it is already in
   * use the insert fails (None) and nothing changes. Earlier tokens, the
   * user's own included, stay as they were.
   */
  method CreateResetToken(db: Database, user: nat, now: int, value: nat) returns (r: Option<ResetToken>)
    requires db.Valid() && user in db.users
    modifies db
    ensures db.Valid()
    ensures r.Some? <==> !TokenValueTaken(old(db.resetTokens), value)
    ensures r.Some? ==> r.value == ResetToken(user, value, now, now + ResetTokenLifetime)
    ensures r.Some? ==> exists id: nat :: id !in old(db.resetTokens) && db.resetTokens == old(db.resetTokens)[id := r.value]
    ensures r.None? ==> db.resetTokens == old(db.resetTokens)
    ensures db.users == old(db.users) && db.profiles == old(db.profiles)
    ensures db.nextUserId == old(db.nextUserId)
  {
    var row := ResetToken(user, value, now, now + ResetTokenLifetime);
    var id := db.InsertResetToken(row);
    if id.Some? {
      r := Some(row);
    } else {
      r := None;
    }
  }

  /** A freshly issued token is not expired at any instant up to an hour after its creation. */
  lemma FreshTokenValidForAnHour(user: nat, value: nat, now: int, t: int)
    requires t <= now + ResetTokenLifetime
    ensures !IsExpired(ResetToken(user, value, now, now + ResetTokenLifetime), t)
  {
  }

  /** ... and expired at every instant after that hour. */
  lemma FreshTokenExpiresAfterAnHour(user: nat, value: nat, now: int, t: int)
    requires t > now + ResetTokenLifetime
    ensures IsExpired(ResetToken(user, value, now, now + ResetTokenLifetime), t)
  {
  }
}
