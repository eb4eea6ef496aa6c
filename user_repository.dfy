/** The in-memory user store: an append-only list scanned front to back. */
module UserRepository {
  import opened Wrappers
  import opened Domain
  import Scan

  /** The test `find_by_id` applies: exact identifier equality. */
  function HasId(id: Uuid): User -> bool {
    (u: User) => u.id == id
  }

  /** The test `find_by_email` applies: email equality ignoring letter case. */
  function HasEmail(email: string): User -> bool {
    (u: User) => SameIgnoringCase(u.email, email)
  }

  class InMemoryUserRepository {
    var users: seq<User>

    constructor ()
      ensures users == []
    {
      users := [];
    }

    /** Appends `user` to the store and hands it back. */
    method Save(user: User) returns (saved: User)
      modifies this
      ensures users == old(users) + [user]
      ensures saved == user
    {
      users := users + [user];
      saved := user;
    }

    /** The first stored user whose email matches ignoring case; None when no email matches. */
    method FindByEmail(email: string) returns (r: Option<User>)
      ensures r == Scan.FirstMatch(users, HasEmail(email))
    {
      var i := 0;
      while i < |users|
        invariant 0 <= i <= |users|
        invariant forall j :: 0 <= j < i ==> !SameIgnoringCase(users[j].email, email)
      {
        if Lower(users[i].email) == Lower(email) {
          return Some(users[i]);
        }
        i := i + 1;
      }
      return None;
    }

    /** The first stored user with exactly this id; None when there is none. */
    method FindById(id: Uuid) returns (r: Option<User>)
      ensures r == Scan.FirstMatch(users, HasId(id))
    {
      var i := 0;
      while i < |users|
        invariant 0 <= i <= |users|
        invariant forall j :: 0 <= j < i ==> users[j].id != id
      {
        if users[i].id == id {
          return Some(users[i]);
        }
        i := i + 1;
      }
      return None;
    }
  }

  /** Once a user is saved, looking up its id finds a user with that id. */
  lemma FindByIdAfterSave(users: seq<User>, user: User)
    ensures Scan.FirstMatch(users + [user], HasId(user.id)).Some?
    ensures Scan.FirstMatch(users + [user], HasId(user.id)).value.id == user.id
  {
    Scan.FirstMatchAppend(users, user, HasId(user.id));
  }
}
