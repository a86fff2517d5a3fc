/** UserStorageInMemory
    (src/main/java/ru/practicum/shareit/user/storage/UserStorageInMemory.java):
    users in a hash map under ids counted from 1, emails kept unique by a
    scan over the stored users before each write. */
module UserStorage {
  import opened Outcomes
  import opened Users

  /** No two users in `users` share an email. */
  ghost predicate UniqueEmails(users: map<int, User>) {
    forall a, b :: a in users && b in users && users[a].email == users[b].email ==> a == b
  }

  /** Some user in `users` has the email. */
  ghost predicate EmailTaken(users: map<int, User>, email: string) {
    exists k :: k in users && users[k].email == email
  }

  class UserStorageInMemory {
    var userCount: int
    var users: map<int, User>

    ghost predicate Valid()
      reads this
    {
      1 <= userCount &&
      (forall k :: k in users ==> users[k].id == k && 1 <= k < userCount) &&
      UniqueEmails(users)
    }

    constructor ()
      ensures Valid()
      ensures users == map[] && userCount == 1
    {
      userCount := 1;
      users := map[];
    }

    /** emailValidation: scans the stored users and reports AlreadyExists at
        the first one with the email. */
    method EmailValidation(email: string) returns (r: Result<()>)
      ensures r.Err? <==> EmailTaken(users, email)
      ensures r.Err? ==> r.error == AlreadyExists
    {
      var remaining := users.Keys;
      while remaining != {}
        invariant remaining <= users.Keys
        invariant forall k :: k in users && k !in remaining ==> users[k].email != email
        decreases |remaining|
      {
        // A set without elements is empty, so the guard leaves one to pick.
        assert (forall x :: x !in remaining) ==> remaining == {};
        var k :| k in remaining;
        if users[k].email == email {
          return Err(AlreadyExists);
        }
        remaining := remaining - {k};
      }
      return Ok(());
    }

    /** createUser: AlreadyExists when a stored user has the email;
        otherwise the user under the next id. */
    method CreateUser(u: User) returns (r: Result<User>)
      requires Valid()
      modifies this
      ensures Valid()
      ensures old(EmailTaken(users, u.email)) ==> r == Err(AlreadyExists) && unchanged(this)
      ensures !old(EmailTaken(users, u.email)) ==>
                r == Ok(u.(id := old(userCount))) &&
                users == old(users)[old(userCount) := u.(id := old(userCount))] &&
                userCount == old(userCount) + 1
    {
      var check := EmailValidation(u.email);
      if check.Err? {
        return Err(check.error);
      }
      var created := u.(id := userCount);
      userCount := userCount + 1;
      users := users[created.id := created];
      return Ok(created);
    }

    /** updateUser: the stored user with the given user's id takes its name
        and email; the email is checked only when it changes. The user must
        be stored (otherwise the source dereferences null). */
    method UpdateUser(updated: User) returns (r: Result<User>)
      requires Valid()
      requires updated.id in users
      modifies this
      ensures Valid()
      ensures old(users)[updated.id].email != updated.email && old(EmailTaken(users, updated.email)) ==>
                r == Err(AlreadyExists) && unchanged(this)
      ensures !(old(users)[updated.id].email != updated.email && old(EmailTaken(users, updated.email))) ==>
                var u := old(users)[updated.id].(name := updated.name, email := updated.email);
                r == Ok(u) && users == old(users)[updated.id := u] && userCount == old(userCount)
    {
      var user := users[updated.id];
      if user.email != updated.email {
        var check := EmailValidation(updated.email);
        if check.Err? {
          return Err(check.error);
        }
      }
      user := user.(name := updated.name, email := updated.email);
      users := users[user.id := user];
      return Ok(user);
    }

    /** getAllUsers: exactly the stored users. */
    function GetAllUsers(): (r: set<User>)
      reads this
      requires Valid()
      ensures forall u :: u in r <==> u.id in users && users[u.id] == u
    {
      set k | k in users :: users[k]
    }

    /** getUserById: the stored user, or None for null. */
    function GetUserById(userId: int): (r: Option<User>)
      reads this
      requires Valid()
      ensures r.Some? <==> userId in users
      ensures r.Some? ==> r.value.id == userId && r.value == users[userId]
    {
      if userId in users then Some(users[userId]) else None
    }

    method DeleteUserById(userId: int)
      requires Valid()
      modifies this
      ensures Valid()
      ensures users == old(users) - {userId} && userCount == old(userCount)
    {
      users := users - {userId};
    }

    /** Keeping one's own email is always accepted, whatever else changes. */
    lemma KeepingEmailAccepted(updated: User)
      requires Valid() && updated.id in users
      requires users[updated.id].email == updated.email
      ensures !(users[updated.id].email != updated.email && EmailTaken(users, updated.email))
    {
    }

    /** Ids are never reused: a user created after a deletion gets an id no
        user has had before. */
    lemma NewIdIsFresh()
      requires Valid()
      ensures userCount !in users && forall k :: k in users ==> k < userCount
    {
    }
  }
}
