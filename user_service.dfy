/** The user service: create a user, look one up, list them all. */
module UserService {
  import opened Results
  import opened Models

  /** A user as the `users` table first stores it: no gems, no trades, no rank. */
  function NewUser(id: int, username: string): (u: User)
    ensures u.id == id && u.username == username
    ensures u.gemCount == 0 && u.tradeCount == 0 && u.rank == None
  {
    User(id, username, 0, None, 0)
  }

  /**
   * Looks a user up by id; fails with `UserNotFound` exactly when no row
   * has that id.
   */
  function GetUser(db: Store, id: int): (r: Result<User>)
    reads db`users
    ensures r.Err? <==> forall k :: 0 <= k < |db.users| ==> db.users[k].id != id
    ensures r.Err? ==> r.error == UserNotFound
    ensures r.Ok? ==> r.value in db.users && r.value.id == id
  {
    match UserIndex(db.users, id)
    case None => Err(UserNotFound)
    case Some(k) => Ok(db.users[k])
  }

  /** Every stored user, in table order. */
  function ListUsers(db: Store): (r: seq<User>)
    reads db`users
    ensures |r| == |db.users|
    ensures forall u :: u in r <==> u in db.users
  {
    db.users
  }

  /**
   * Inserts a user with the given id and name. A taken id fails with
   * `UserIdExists` and leaves the table as it was; otherwise exactly one row
   * is added, and a lookup of the id then returns it.
   */
  method CreateUser(db: Store, id: int, username: string) returns (r: Result<User>)
    requires db.Valid()
    modifies db`users
    ensures db.Valid()
    ensures old(GetUser(db, id)).Ok? ==> r == Err(UserIdExists) && db.users == old(db.users)
    ensures old(GetUser(db, id)).Err? ==>
      && r == Ok(NewUser(id, username))
      && db.users == old(db.users) + [NewUser(id, username)]
      && GetUser(db, id) == Ok(NewUser(id, username))
  {
    if UserIndex(db.users, id).Some? {
      return Err(UserIdExists);
    }
    var user := NewUser(id, username);
    db.users := db.users + [user];
    assert db.users[|db.users| - 1] == user;
    assert forall k :: 0 <= k < |db.users| - 1 ==> db.users[k].id != id;
    r := Ok(user);
  }
}
