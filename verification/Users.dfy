/** Deleting an account (app/api/v1/routes/user.py): one commit that cascades through every table. */
module Users {
  import opened Prelude
  import opened Store
  import Ownership
  import Groups
  import Tokens

  method CascadeOwnership(db: Database, user: UserId)
    modifies db`challenges, db`mappings, db`requests, db`shares
    ensures Ownership.View(db).(users := db.users - {user}) == Ownership.DeleteUser(old(Ownership.View(db)), user)
  {
    db.challenges := map rid | rid in db.challenges && db.challenges[rid].user != user :: db.challenges[rid];
    db.mappings := Filter(db.mappings, (m: Mapping) => m.user != user);
    db.requests := map id | id in db.requests && db.requests[id].from != user :: db.requests[id];
    db.shares := Filter(db.shares, (sh: Share) => sh.from != user && sh.to != user);
  }

  method CascadeGroups(db: Database, user: UserId)
    modifies db`groups, db`members
    ensures Groups.View(db).(users := (db.users - {user}).Keys) == Groups.DeleteUser(old(Groups.View(db)), user)
  {
    var doomed := Groups.CascadeFrom(db.groups, Groups.OwnedBy(db.groups, user));
    db.groups := db.groups - doomed;
    db.members := set m | m in db.members && m.group !in doomed;
    assert (db.users - {user}).Keys == db.users.Keys - {user};
  }

  /** The three machines that share the users table each see the deletion they expect. */
  method DeleteCurrentUser(db: Database, user: UserId)
    modifies db`users, db`refreshTokens, db`challenges, db`mappings, db`requests, db`shares, db`groups, db`members
    ensures Ownership.View(db) == Ownership.DeleteUser(old(Ownership.View(db)), user)
    ensures Groups.View(db) == Groups.DeleteUser(old(Groups.View(db)), user)
    ensures Tokens.AccountsOf(db) == Tokens.DeleteAccount(old(Tokens.AccountsOf(db)), user)
  {
    CascadeOwnership(db, user);
    CascadeGroups(db, user);
    db.refreshTokens := map j | j in db.refreshTokens && db.refreshTokens[j].user != user :: db.refreshTokens[j];
    db.users := db.users - {user};
  }
}
