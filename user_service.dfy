/** The server's UserServiceImpl
    (server/src/main/java/ru/practicum/shareit/user/service/UserServiceImpl.java):
    users stored through the repository, with emails kept unique by checking
    for a stored user with the same email before writing. */
module UserService {
  import opened Outcomes
  import opened Users
  import opened Repositories

  class UserServiceImpl {
    const userRepository: UserRepository

    constructor (users: UserRepository)
      ensures userRepository == users
    {
      userRepository := users;
    }

    ghost predicate Valid()
      reads this, userRepository
    {
      userRepository.Valid() && userRepository.EmailsUnique()
    }

    /** createUser: AlreadyExists when a stored user has the email, and then
        nothing is stored; otherwise the new user under the next id. */
    method CreateUser(c: UserCreateDto) returns (r: Result<UserDto>)
      requires Valid()
      modifies userRepository
      ensures Valid()
      ensures old(userRepository.ExistsUserByEmail(c.email)) ==>
                r == Err(AlreadyExists) && unchanged(userRepository)
      ensures !old(userRepository.ExistsUserByEmail(c.email)) ==>
                var u := User(old(userRepository.nextId), c.name, c.email);
                r == Ok(MapToUserDto(u)) &&
                userRepository.users == old(userRepository.users)[u.id := u] &&
                userRepository.nextId == old(userRepository.nextId) + 1
    {
      if userRepository.ExistsUserByEmail(c.email) {
        return Err(AlreadyExists);
      }
      var user := userRepository.Save(MapToNewUser(c));
      return Ok(MapToUserDto(user));
    }

    /** updateUser: AlreadyExists when the update provides an email some
        stored user has (the caller included), checked before anything else;
        then NotFound for an unknown user; otherwise the user with the
        provided fields applied. */
    method UpdateUser(d: UserUpdateDto, userId: int) returns (r: Result<UserDto>)
      requires Valid()
      modifies userRepository
      ensures Valid()
      ensures HasEmail(d) && old(userRepository.ExistsUserByEmail(d.email.value)) ==>
                r == Err(AlreadyExists) && unchanged(userRepository)
      ensures !(HasEmail(d) && old(userRepository.ExistsUserByEmail(d.email.value))) &&
              userId !in old(userRepository.users) ==>
                r == Err(NotFound) && unchanged(userRepository)
      ensures !(HasEmail(d) && old(userRepository.ExistsUserByEmail(d.email.value))) &&
              userId in old(userRepository.users) ==>
                var u := UpdateUserFields(old(userRepository.users)[userId], d);
                r == Ok(MapToUserDto(u)) &&
                userRepository.users == old(userRepository.users)[userId := u] &&
                userRepository.nextId == old(userRepository.nextId)
    {
      if HasEmail(d) && userRepository.ExistsUserByEmail(d.email.value) {
        return Err(AlreadyExists);
      }
      if userId !in userRepository.users {
        return Err(NotFound);
      }
      var user := UpdateUserFields(userRepository.users[userId], d);
      user := userRepository.Save(user);
      return Ok(MapToUserDto(user));
    }

    /** getAllUsers: the views of exactly the stored users. */
    function GetAllUsers(): (r: set<UserDto>)
      reads this, userRepository
      requires userRepository.Valid()
      ensures forall d :: d in r <==> d.id in userRepository.users && d == MapToUserDto(userRepository.users[d.id])
    {
      set k | k in userRepository.users :: MapToUserDto(userRepository.users[k])
    }

    /** getUserById: the user's view, or NotFound. */
    function GetUserById(userId: int): (r: Result<UserDto>)
      reads this, userRepository
      requires userRepository.Valid()
      ensures r.Err? <==> userId !in userRepository.users
      ensures r.Err? ==> r.error == NotFound
      ensures r.Ok? ==> r.value.id == userId && MapToUser(r.value) == userRepository.users[userId]
    {
      if userId !in userRepository.users then Err(NotFound)
      else Ok(MapToUserDto(userRepository.users[userId]))
    }

    /** deleteUserById: NotFound for an unknown user, otherwise the user is
        removed. */
    method DeleteUserById(userId: int) returns (r: Result<()>)
      requires Valid()
      modifies userRepository
      ensures Valid()
      ensures userId !in old(userRepository.users) ==> r == Err(NotFound) && unchanged(userRepository)
      ensures userId in old(userRepository.users) ==>
                r == Ok(()) && userRepository.users == old(userRepository.users) - {userId} &&
                userRepository.nextId == old(userRepository.nextId)
      ensures GetUserById(userId) == Err(NotFound)
    {
      if userId !in userRepository.users {
        return Err(NotFound);
      }
      userRepository.DeleteById(userId);
      return Ok(());
    }

    /** Re-sending one's own current email is refused: the email check does
        not exclude the user being updated. */
    lemma OwnEmailRefused(userId: int, d: UserUpdateDto)
      requires userId in userRepository.users
      requires HasEmail(d) && d.email.value == userRepository.users[userId].email
      ensures userRepository.ExistsUserByEmail(d.email.value)
    {
    }

    /** A successful update leaves every email unique: an update that
        changes the email only gets through when no user has the new one. */
    lemma UpdateKeepsEmailsUnique(userId: int, d: UserUpdateDto)
      requires Valid() && userId in userRepository.users
      requires !(HasEmail(d) && userRepository.ExistsUserByEmail(d.email.value))
      ensures var users := userRepository.users[userId := UpdateUserFields(userRepository.users[userId], d)];
        forall a, b :: a in users && b in users && users[a].email == users[b].email ==> a == b
    {
      var u := UpdateUserFields(userRepository.users[userId], d);
      UpdateUserFieldsChangesOnlyProvided(userRepository.users[userId], d);
      if HasEmail(d) {
        assert forall k :: k in userRepository.users ==> userRepository.users[k].email != u.email;
      }
    }
  }
}
